/**
 * The share link: the URL the admin copies for one record, and how the
 * page reads the `share` query parameter back when the link is opened.
 */
module ShareLink {
  import opened Wrappers
  import opened Numbers

  const ShareParam := "share"

  /** Splits `s` at every `sep`, keeping empty pieces, like `String.prototype.split`. */
  function SplitOn(s: string, sep: char): (parts: seq<string>)
    ensures |parts| >= 1
    decreases |s|
  {
    if s == [] then [""]
    else
      var rest := SplitOn(s[1..], sep);
      if s[0] == sep then [""] + rest else [[s[0]] + rest[0]] + rest[1..]
  }

  lemma {:induction false} SplitWithoutSeparator(s: string, sep: char)
    requires sep !in s
    ensures SplitOn(s, sep) == [s]
    decreases |s|
  {
    if s != [] {
      assert sep !in s[1..];
      SplitWithoutSeparator(s[1..], sep);
      assert [s[0]] + s[1..] == s;
    }
  }

  /** Position of the first `c` in `s`, or `|s|` when there is none. */
  function IndexOf(s: string, c: char): (i: nat)
    ensures i <= |s|
    ensures i < |s| ==> s[i] == c
    ensures c !in s[..i]
    decreases |s|
  {
    if s == [] then 0
    else if s[0] == c then 0
    else
      var j := IndexOf(s[1..], c);
      assert s[..j + 1] == [s[0]] + s[1..][..j];
      1 + j
  }

  lemma IndexOfAfterPrefix(p: string, c: char, t: string)
    requires c !in p
    ensures IndexOf(p + [c] + t, c) == |p|
  {
    var s := p + [c] + t;
    assert s[|p|] == c;
    assert s[..|p|] == p;
  }

  /** Name and value of one `name=value` pair; a pair without `=` has the empty value. */
  function PairName(pair: string): string {
    pair[..IndexOf(pair, '=')]
  }

  function PairValue(pair: string): string {
    var i := IndexOf(pair, '=');
    if i < |pair| then pair[i + 1..] else ""
  }

  /** The value of the first pair named `name`, skipping empty pieces. */
  function FirstValue(pairs: seq<string>, name: string): (v: Option<string>)
    ensures v.Some? <==> exists i :: 0 <= i < |pairs| && pairs[i] != "" && PairName(pairs[i]) == name
    ensures v.Some? ==> exists i :: && 0 <= i < |pairs| && pairs[i] != "" && PairName(pairs[i]) == name
                                    && v.value == PairValue(pairs[i])
                                    && forall j :: 0 <= j < i ==> !(pairs[j] != "" && PairName(pairs[j]) == name)
  {
    if pairs == [] then None
    else if pairs[0] != "" && PairName(pairs[0]) == name then Some(PairValue(pairs[0]))
    else
      var v := FirstValue(pairs[1..], name);
      assert forall i :: 1 <= i < |pairs| ==> pairs[i] == pairs[1..][i - 1];
      v
  }

  /** `new URLSearchParams(search).get(name)`, without percent-decoding. */
  function SearchParam(search: string, name: string): (v: Option<string>)
    ensures search == "" || search == "?" ==> v == None
  {
    var query := if search != [] && search[0] == '?' then search[1..] else search;
    FirstValue(SplitOn(query, '&'), name)
  }

  /** The `sharedId` state after mount: `share` when present and non-empty, since `if (id)` skips "". */
  function SharedIdFrom(search: string): (shared: Option<string>)
    ensures shared.Some? ==> shared.value != "" && SearchParam(search, ShareParam) == shared
    ensures SearchParam(search, ShareParam).Some? && SearchParam(search, ShareParam).value != "" ==> shared.Some?
  {
    match SearchParam(search, ShareParam)
    case Some(v) => if v == "" then None else Some(v)
    case None => None
  }

  /** `window.location.search` of a URL: from the first `?` up to the first `#`. */
  function SearchOf(url: string): (search: string)
    ensures '#' !in search
    ensures search != "" ==> search[0] == '?'
    ensures '?' !in url ==> search == ""
  {
    var q := IndexOf(url, '?');
    var rest := url[q..];
    rest[..IndexOf(rest, '#')]
  }

  /** The link `handleShare` copies: the origin, `?share=` and the id's decimal text. */
  function ShareUrl(origin: string, id: nat): string {
    origin + "?" + ShareParam + "=" + DecimalString(id)
  }

  /** The address bar's search part of a share link is `?share=` and the id's text. */
  lemma SearchOfShareUrl(origin: string, id: nat)
    requires '?' !in origin && '#' !in origin
    ensures SearchOf(ShareUrl(origin, id)) == "?" + ShareParam + "=" + DecimalString(id)
  {
    var d := DecimalString(id);
    var query := ShareParam + "=" + d;
    var search := "?" + query;
    assert ShareUrl(origin, id) == origin + ['?'] + query;
    IndexOfAfterPrefix(origin, '?', query);
    assert ShareUrl(origin, id)[|origin|..] == search;
    assert forall i :: 0 <= i < |search| ==> search[i] != '#' by {
      forall i | 0 <= i < |search| ensures search[i] != '#' {
        if i >= 7 { assert search[i] == d[i - 7]; assert IsDigit(d[i - 7]); }
      }
    }
    assert search[..|search|] == search;
  }

  /** The page reads a non-empty run of digits back out of `?share=`. */
  lemma ShareQueryGivesDigits(d: string)
    requires AllDigits(d) && d != ""
    ensures SharedIdFrom("?" + ShareParam + "=" + d) == Some(d)
  {
    var query := ShareParam + "=" + d;
    var search := "?" + query;
    assert search[1..] == query;
    assert '&' !in query by {
      forall i | 0 <= i < |query| ensures query[i] != '&' {
        if i >= 6 { assert query[i] == d[i - 6]; assert IsDigit(d[i - 6]); }
      }
    }
    SplitWithoutSeparator(query, '&');
    assert query == ShareParam + ['='] + d;
    IndexOfAfterPrefix(ShareParam, '=', d);
    assert PairName(query) == ShareParam;
    assert PairValue(query) == d;
    assert search[0] == '?';
    assert FirstValue([query], ShareParam) == Some(d);
    assert SearchParam(search, ShareParam) == Some(d);
    assert "?" + ShareParam + "=" + d == search;
  }

  /** Opening a share link gives back, as `sharedId`, exactly the id's text. */
  lemma ShareLinkRoundTrip(origin: string, id: nat)
    requires '?' !in origin && '#' !in origin
    ensures SharedIdFrom(SearchOf(ShareUrl(origin, id))) == Some(DecimalString(id))
  {
    SearchOfShareUrl(origin, id);
    ShareQueryGivesDigits(DecimalString(id));
  }
}
