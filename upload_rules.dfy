/**
 * The pure rules of the admin upload page: removing a picked file, the
 * priority field, the progress bar, and what one press of "Upload" asks
 * of the outside world and of the progress counter.
 */
module UploadRules {
  import opened Wrappers
  import opened Numbers

  const FillAllFields := "Please fill all fields"
  const SelectImages := "Please select images"
  const UploadSucceeded := "Upload successful ✅"
  const UploadFailed := "Upload failed ❌"

  /** A picked file; its bytes are not modelled. */
  datatype File = File(name: string)

  /** How the image host answered one file: the request threw, or it returned a body with or without `secure_url`. */
  datatype FileReply = Threw | Replied(secureUrl: Option<string>)

  /** The calls the page makes on the outside world, in order. */
  datatype Effect =
    | Alert(message: string)
    | InsertDescription(imageName: string, imageType: string, details: string, priority: nat)
    | PostImage(file: File)
    | InsertImageRow(descriptionId: nat, imageUrl: Option<string>)

  /* ---------- removing a picked file ---------- */

  /** `s.filter((_, i) => i !== index)`, for the part of `s` that starts at position `from`. */
  function KeepOthers<T>(s: seq<T>, index: int, from: int): seq<T>
    decreases |s|
  {
    if s == [] then [] else (if from == index then [] else [s[0]]) + KeepOthers(s[1..], index, from + 1)
  }

  function RemoveAt<T>(s: seq<T>, index: int): seq<T> {
    KeepOthers(s, index, 0)
  }

  lemma {:induction false} KeepOthersCuts<T>(s: seq<T>, index: int, from: int)
    ensures KeepOthers(s, index, from)
            == if from <= index < from + |s| then s[..index - from] + s[index - from + 1..] else s
    decreases |s|
  {
    if s != [] {
      KeepOthersCuts(s[1..], index, from + 1);
      if from < index < from + |s| {
        assert s[..index - from] == [s[0]] + s[1..][..index - from - 1];
        assert s[index - from + 1..] == s[1..][index - from..];
      } else if from != index {
        assert [s[0]] + s[1..] == s;
      }
    }
  }

  /** Removing by index drops exactly that element and keeps the rest in order; a stale index changes nothing. */
  lemma RemoveAtSpec<T>(s: seq<T>, index: int)
    ensures 0 <= index < |s| ==> RemoveAt(s, index) == s[..index] + s[index + 1..]
    ensures 0 <= index < |s| ==> |RemoveAt(s, index)| == |s| - 1
    ensures !(0 <= index < |s|) ==> RemoveAt(s, index) == s
  {
    KeepOthersCuts(s, index, 0);
  }

  /* ---------- the priority field ---------- */

  /** `value.replace(/\D/g, "")`: the digits of the input, in order. */
  function Sanitize(s: string): (r: string)
    ensures AllDigits(r) && |r| <= |s|
    ensures forall c :: c in r <==> c in s && IsDigit(c)
  {
    if s == [] then [] else (if IsDigit(s[0]) then [s[0]] else []) + Sanitize(s[1..])
  }

  /** Sanitising a concatenation sanitises each part, in order. */
  lemma {:induction false} SanitizeDistributes(a: string, b: string)
    ensures Sanitize(a + b) == Sanitize(a) + Sanitize(b)
  {
    if a == [] {
      assert a + b == b;
    } else {
      assert (a + b)[1..] == a[1..] + b;
      SanitizeDistributes(a[1..], b);
    }
  }

  /** Text that is already all digits is kept as it is. */
  lemma {:induction false} SanitizeKeepsDigits(s: string)
    requires AllDigits(s)
    ensures Sanitize(s) == s
  {
    if s != [] {
      SanitizeKeepsDigits(s[1..]);
      assert [s[0]] + s[1..] == s;
    }
  }

  /** A second pass changes nothing. */
  lemma SanitizeIdempotent(s: string)
    ensures Sanitize(Sanitize(s)) == Sanitize(s)
  {
    SanitizeKeepsDigits(Sanitize(s));
  }

  /** `priority === "" ? 0 : Number(priority)` for the sanitised field. */
  function FinalPriority(p: string): nat
    requires AllDigits(p)
  {
    if p == "" then 0 else DigitsValue(p)
  }

  /** The stored priority is the number the admin typed: the decimal text of `n` gives `n`, the empty field 0, and a leading zero is ignored. */
  lemma FinalPriorityReadsNumber(n: nat, s: string)
    requires AllDigits(s)
    ensures FinalPriority(DecimalString(n)) == n
    ensures FinalPriority("") == 0
    ensures AllDigits("0" + s) && FinalPriority("0" + s) == FinalPriority(s)
  {
    DigitsValueOfDecimal(n);
    LeadingZeroIgnored(s);
  }

  /* ---------- the progress bar ---------- */

  /** `Math.round(cur / n * 100)`, or 0 without files; rounding half up in exact arithmetic. */
  function ProgressPercent(cur: nat, n: nat): nat {
    if n > 0 then (200 * cur + n) / (2 * n) else 0
  }

  lemma MulCancel(a: int, b: int, d: int)
    requires d > 0 && a * d < b * d
    ensures a < b
  {
    assert (b - a) * d == b * d - a * d;
  }

  lemma DivisionBelow(x: nat, d: nat, q: nat)
    requires d > 0 && x < (q + 1) * d
    ensures x / d <= q
  {
    assert (x / d) * d + x % d == x;
    MulCancel(x / d, q + 1, d);
  }

  lemma DivisionAbove(x: nat, d: nat, q: nat)
    requires d > 0 && q * d <= x
    ensures q <= x / d
  {
    assert (x / d) * d + x % d == x;
    assert x < (x / d + 1) * d;
    MulCancel(q, x / d + 1, d);
  }

  /**
   * The bar stays within 0..100 and is full exactly when at least 99.5% of
   * the files are under way, which for fewer than 200 files means the last one.
   */
  lemma ProgressPercentBounds(cur: nat, n: nat)
    requires cur <= n
    ensures ProgressPercent(cur, n) <= 100
    ensures n > 0 ==> (ProgressPercent(cur, n) == 100 <==> 200 * cur >= 199 * n)
    ensures 0 < n < 200 ==> (ProgressPercent(cur, n) == 100 <==> cur == n)
  {
    if n > 0 {
      var x, d := 200 * cur + n, 2 * n;
      DivisionBelow(x, d, 100);
      if 200 * cur >= 199 * n {
        DivisionAbove(x, d, 100);
      } else {
        DivisionBelow(x, d, 99);
      }
    }
  }

  /** The bar never moves back as the counter goes up. */
  lemma ProgressPercentMonotone(a: nat, b: nat, n: nat)
    requires a <= b
    ensures ProgressPercent(a, n) <= ProgressPercent(b, n)
  {
    if n > 0 {
      var q := ProgressPercent(a, n);
      assert q * (2 * n) <= 200 * a + n;
      DivisionAbove(200 * b + n, 2 * n, q);
    }
  }

  /* ---------- one press of "Upload" ---------- */

  /** The form's fields at the moment the button is pressed. */
  datatype Form = Form(imageName: string, imageType: string, description: string, priority: string, files: seq<File>)

  const EmptyForm := Form("", "", "", "", [])

  datatype Check = MissingFields | NoFiles | Proceed

  /** The two guards of `handleUpload`, in the order the source tests them. */
  function Validate(f: Form): (c: Check)
    ensures c == Proceed <==> f.imageName != "" && f.imageType != "" && f.description != "" && f.files != []
    ensures c == NoFiles <==> f.imageName != "" && f.imageType != "" && f.description != "" && f.files == []
  {
    if f.imageName == "" || f.imageType == "" || f.description == "" then MissingFields
    else if |f.files| == 0 then NoFiles
    else Proceed
  }

  /** Index of the first file whose upload throws, or the number of files when none does. */
  function FirstThrow(replies: seq<FileReply>): (k: nat)
    ensures k <= |replies|
    ensures forall j :: 0 <= j < k ==> replies[j].Replied?
    ensures k < |replies| ==> replies[k].Threw?
  {
    if replies == [] || replies[0].Threw? then 0 else 1 + FirstThrow(replies[1..])
  }

  function UrlOf(r: FileReply): Option<string> {
    if r.Replied? then r.secureUrl else None
  }

  /** For each uploaded file in turn: its post to the image host, then its `image_urls` row. */
  function FileEffects(files: seq<File>, descId: nat, replies: seq<FileReply>): seq<Effect>
    requires |replies| >= |files|
  {
    if files == [] then []
    else
      var last := |files| - 1;
      FileEffects(files[..last], descId, replies) + [PostImage(files[last]), InsertImageRow(descId, UrlOf(replies[last]))]
  }

  /** `1, 2, ..., m`. */
  function Steps(m: nat): (s: seq<nat>)
    ensures |s| == m
    ensures forall i :: 0 <= i < m ==> s[i] == i + 1
  {
    seq(m, i => i + 1)
  }

  /** Everything one press does outside the page, given the answers of the services. */
  function RunEffects(f: Form, descReply: Option<nat>, replies: seq<FileReply>): seq<Effect>
    requires AllDigits(f.priority) && |replies| == |f.files|
  {
    match Validate(f)
    case MissingFields => [Alert(FillAllFields)]
    case NoFiles => [Alert(SelectImages)]
    case Proceed =>
      [InsertDescription(f.imageName, f.imageType, f.description, FinalPriority(f.priority))]
      + match descReply
        case None => [Alert(UploadFailed)]
        case Some(id) =>
          var k := FirstThrow(replies);
          FileEffects(f.files[..k], id, replies)
          + if k < |f.files| then [PostImage(f.files[k]), Alert(UploadFailed)] else [Alert(UploadSucceeded)]
  }

  /** The values `currentUploadingIndex` is set to during one press, in order. */
  function RunProgress(f: Form, descReply: Option<nat>, replies: seq<FileReply>): seq<nat>
    requires |replies| == |f.files|
  {
    if Validate(f) != Proceed then []
    else if descReply == None then [0, 0]
    else
      var k := FirstThrow(replies);
      [0] + Steps(if k < |f.files| then k + 1 else k) + [0]
  }

  /** The run that ends in "Upload successful": the description was stored and no file upload threw. */
  predicate RunSucceeded(f: Form, descReply: Option<nat>, replies: seq<FileReply>)
    requires |replies| == |f.files|
  {
    Validate(f) == Proceed && descReply.Some? && FirstThrow(replies) == |f.files|
  }

  /**
   * `RunEffects` and `RunProgress` spelled out for each way a run that passed
   * the guards can end, appended to what was logged before, in the order the
   * page appends them.
   */
  lemma RunWhenDescriptionFails(f: Form, replies: seq<FileReply>, effects: seq<Effect>, progress: seq<nat>)
    requires AllDigits(f.priority) && |replies| == |f.files| && Validate(f) == Proceed
    ensures effects + [InsertDescription(f.imageName, f.imageType, f.description, FinalPriority(f.priority))] + [Alert(UploadFailed)]
            == effects + RunEffects(f, None, replies)
    ensures progress + [0] + [0] == progress + RunProgress(f, None, replies)
    ensures !RunSucceeded(f, None, replies)
  {
  }

  lemma RunWhenFileThrows(f: Form, id: nat, replies: seq<FileReply>, k: nat, effects: seq<Effect>, progress: seq<nat>)
    requires AllDigits(f.priority) && |replies| == |f.files| && Validate(f) == Proceed
    requires k == FirstThrow(replies) && k < |f.files|
    ensures effects + [InsertDescription(f.imageName, f.imageType, f.description, FinalPriority(f.priority))]
              + FileEffects(f.files[..k], id, replies) + [PostImage(f.files[k])] + [Alert(UploadFailed)]
            == effects + RunEffects(f, Some(id), replies)
    ensures progress + [0] + Steps(k + 1) + [0] == progress + RunProgress(f, Some(id), replies)
    ensures !RunSucceeded(f, Some(id), replies)
  {
    var insert := [InsertDescription(f.imageName, f.imageType, f.description, FinalPriority(f.priority))];
    var middle := FileEffects(f.files[..k], id, replies);
    assert RunEffects(f, Some(id), replies) == insert + (middle + [PostImage(f.files[k]), Alert(UploadFailed)]);
    assert [PostImage(f.files[k]), Alert(UploadFailed)] == [PostImage(f.files[k])] + [Alert(UploadFailed)];
  }

  lemma RunWhenAllUploaded(f: Form, id: nat, replies: seq<FileReply>, effects: seq<Effect>, progress: seq<nat>)
    requires AllDigits(f.priority) && |replies| == |f.files| && Validate(f) == Proceed
    requires FirstThrow(replies) == |f.files|
    ensures effects + [InsertDescription(f.imageName, f.imageType, f.description, FinalPriority(f.priority))]
              + FileEffects(f.files[..|f.files|], id, replies) + [Alert(UploadSucceeded)]
            == effects + RunEffects(f, Some(id), replies)
    ensures progress + [0] + Steps(|f.files|) + [0] == progress + RunProgress(f, Some(id), replies)
    ensures RunSucceeded(f, Some(id), replies)
  {
    var insert := [InsertDescription(f.imageName, f.imageType, f.description, FinalPriority(f.priority))];
    var middle := FileEffects(f.files[..|f.files|], id, replies);
    assert RunEffects(f, Some(id), replies) == insert + (middle + [Alert(UploadSucceeded)]);
  }

  /** The `image_urls` rows among some effects, in order. */
  function ImageRows(effects: seq<Effect>): seq<Effect> {
    if effects == [] then []
    else
      var last := effects[|effects| - 1];
      ImageRows(effects[..|effects| - 1]) + if last.InsertImageRow? then [last] else []
  }

  /** The files posted to the image host among some effects, in order. */
  function PostedFiles(effects: seq<Effect>): seq<File> {
    if effects == [] then []
    else
      var last := effects[|effects| - 1];
      PostedFiles(effects[..|effects| - 1]) + if last.PostImage? then [last.file] else []
  }

  lemma {:induction false} ImageRowsAppend(a: seq<Effect>, b: seq<Effect>)
    ensures ImageRows(a + b) == ImageRows(a) + ImageRows(b)
    ensures PostedFiles(a + b) == PostedFiles(a) + PostedFiles(b)
    decreases |b|
  {
    if b == [] {
      assert a + b == a;
    } else {
      var b' := b[..|b| - 1];
      assert (a + b)[..|a + b| - 1] == a + b';
      ImageRowsAppend(a, b');
    }
  }

  /** The two effects one uploaded file adds: one posted file, one row. */
  lemma FilePairRows(file: File, row: Effect)
    requires row.InsertImageRow?
    ensures ImageRows([PostImage(file), row]) == [row]
    ensures PostedFiles([PostImage(file), row]) == [file]
  {
    var pair := [PostImage(file), row];
    assert pair[..1] == [PostImage(file)];
    assert pair[..1][..0] == [];
    assert ImageRows(pair[..1]) == [];
    assert PostedFiles(pair[..1]) == [file];
  }

  lemma {:induction false} FileEffectsRows(files: seq<File>, descId: nat, replies: seq<FileReply>)
    requires |replies| >= |files|
    ensures ImageRows(FileEffects(files, descId, replies))
            == seq(|files|, i requires 0 <= i < |files| => InsertImageRow(descId, UrlOf(replies[i])))
    ensures PostedFiles(FileEffects(files, descId, replies)) == files
  {
    if files != [] {
      var last := |files| - 1;
      var row := InsertImageRow(descId, UrlOf(replies[last]));
      FileEffectsRows(files[..last], descId, replies);
      ImageRowsAppend(FileEffects(files[..last], descId, replies), [PostImage(files[last]), row]);
      FilePairRows(files[last], row);
      assert files[..last] + [files[last]] == files;
      assert seq(|files|, i requires 0 <= i < |files| => InsertImageRow(descId, UrlOf(replies[i])))
          == seq(last, i requires 0 <= i < last => InsertImageRow(descId, UrlOf(replies[i]))) + [row];
    }
  }

  /**
   * A successful run posts every picked file once, in order, and writes
   * exactly one `image_urls` row per file, each pointing at the one
   * description it inserted.
   */
  lemma SuccessfulRunOneRowPerFile(f: Form, descReply: Option<nat>, replies: seq<FileReply>)
    requires AllDigits(f.priority) && |replies| == |f.files|
    requires RunSucceeded(f, descReply, replies)
    ensures var e := RunEffects(f, descReply, replies);
            && ImageRows(e) == seq(|f.files|, i requires 0 <= i < |f.files| => InsertImageRow(descReply.value, UrlOf(replies[i])))
            && PostedFiles(e) == f.files
            && e[0] == InsertDescription(f.imageName, f.imageType, f.description, FinalPriority(f.priority))
            && e[|e| - 1] == Alert(UploadSucceeded)
  {
    var id := descReply.value;
    var head := [InsertDescription(f.imageName, f.imageType, f.description, FinalPriority(f.priority))];
    var middle := FileEffects(f.files, id, replies);
    var tail := [Alert(UploadSucceeded)];
    assert f.files[..|f.files|] == f.files;
    assert RunEffects(f, descReply, replies) == head + (middle + tail);
    FileEffectsRows(f.files, id, replies);
    ImageRowsAppend(middle, tail);
    ImageRowsAppend(head, middle + tail);
    assert head[..0] == [] && tail[..0] == [];
  }

  /** A press the guards stop only raises its alert: nothing is stored, uploaded or counted. */
  lemma RejectedRunOnlyAlerts(f: Form, descReply: Option<nat>, replies: seq<FileReply>)
    requires AllDigits(f.priority) && |replies| == |f.files|
    requires Validate(f) != Proceed
    ensures RunEffects(f, descReply, replies) == [Alert(if Validate(f) == MissingFields then FillAllFields else SelectImages)]
    ensures RunProgress(f, descReply, replies) == []
  {
  }

  /**
   * During a run the counter starts at 0, counts 1, 2, ... one per file
   * attempted (all of them when the run succeeds) and ends at 0 again; every
   * value stays within the number of files and the bar within 0..100.
   */
  lemma ProgressCountsFiles(f: Form, descReply: Option<nat>, replies: seq<FileReply>)
    requires |replies| == |f.files|
    requires Validate(f) == Proceed
    ensures var p := RunProgress(f, descReply, replies);
            && |p| >= 2 && p[0] == 0 && p[|p| - 1] == 0
            && (forall i :: 0 < i < |p| - 1 ==> p[i] == i)
            && (forall i :: 0 <= i < |p| ==> p[i] <= |f.files| && ProgressPercent(p[i], |f.files|) <= 100)
    ensures RunSucceeded(f, descReply, replies) ==> |RunProgress(f, descReply, replies)| == |f.files| + 2
  {
    var p := RunProgress(f, descReply, replies);
    forall i | 0 <= i < |p| ensures p[i] <= |f.files| && ProgressPercent(p[i], |f.files|) <= 100 {
      ProgressPercentBounds(p[i], |f.files|);
    }
  }
}
