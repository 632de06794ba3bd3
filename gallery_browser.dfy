/**
 * The `MyDetails` gallery component: its state, the events that change it
 * (auth check, fetch, pager, arrows, touches) and what it renders.
 */
module GalleryBrowser {
  import opened Wrappers
  import opened Numbers
  import opened Access
  import opened ShareLink
  import opened GalleryView
  import opened Carousel

  /** One rendered record: its text, the shown image, whether it has slider controls and a share button. */
  datatype Card = Card(id: nat, details: string, shownImage: Option<string>, slider: bool, shareButton: bool)

  datatype View =
    | Restricted
    | LoadingDetails
    | Creations(cards: seq<Card>, pageButtons: seq<PageNumber>)

  function CardOf(r: Record, m: Cursors, isAdmin: bool): (c: Card)
    ensures c.slider <==> |r.imageUrls| > 1
    ensures c.shareButton <==> isAdmin
    ensures c.shownImage == ShownImage(r.imageUrls, m, r.id)
  {
    Card(r.id, r.details, ShownImage(r.imageUrls, m, r.id), |r.imageUrls| > 1, isAdmin)
  }

  function Cards(rs: seq<Record>, m: Cursors, isAdmin: bool): (cs: seq<Card>)
    ensures |cs| == |rs|
    ensures forall i :: 0 <= i < |rs| ==> cs[i] == CardOf(rs[i], m, isAdmin)
  {
    seq(|rs|, i requires 0 <= i < |rs| => CardOf(rs[i], m, isAdmin))
  }

  class MyDetails {
    var data: seq<Record>
    var loading: bool
    var currentPage: PageNumber
    var activeIndex: Cursors
    var sharedId: Option<string>
    var checkingAuth: bool
    var isAdmin: bool
    var touchStartX: int
    var touchEndX: int

    /** The first render and the mount effect, which reads `share` from the page's query string. */
    constructor (search: string)
      ensures data == [] && loading && checkingAuth && !isAdmin
      ensures currentPage == 1 && activeIndex == map[]
      ensures sharedId == SharedIdFrom(search)
      ensures touchStartX == 0 && touchEndX == 0
    {
      data := [];
      loading := true;
      currentPage := 1;
      activeIndex := map[];
      sharedId := SharedIdFrom(search);
      checkingAuth := true;
      isAdmin := false;
      touchStartX := 0;
      touchEndX := 0;
    }

    /** `checkAuth` once the session and the role lookup have answered. */
    method CheckAuth(session: Session)
      modifies this`isAdmin, this`checkingAuth
      ensures isAdmin == GalleryAdmin(session) && !checkingAuth
    {
      isAdmin := GalleryAdmin(session);
      checkingAuth := false;
    }

    /** `fetchDetails` once the query has answered; `None` is an error, which keeps the old list. */
    method FetchDetails(reply: Option<seq<Record>>)
      modifies this`data, this`loading
      ensures data == reply.GetOr(old(data)) && !loading
    {
      if reply.Some? {
        data := reply.value;
      }
      loading := false;
    }

    /** A pager button. */
    method SelectPage(page: PageNumber)
      modifies this`currentPage
      ensures currentPage == page
    {
      currentPage := page;
    }

    method NextImage(id: nat, length: nat)
      requires length >= 1
      modifies this`activeIndex
      ensures activeIndex == StepForward(old(activeIndex), id, length)
    {
      activeIndex := activeIndex[id := (Cursor(activeIndex, id) + 1) % length];
    }

    method PrevImage(id: nat, length: nat)
      requires length >= 1
      modifies this`activeIndex
      ensures activeIndex == StepBack(old(activeIndex), id, length)
    {
      var c := Cursor(activeIndex, id);
      activeIndex := activeIndex[id := if c == 0 then length - 1 else c - 1];
    }

    method TouchStart(x: int)
      modifies this`touchStartX
      ensures touchStartX == x
    {
      touchStartX := x;
    }

    method TouchMove(x: int)
      modifies this`touchEndX
      ensures touchEndX == x
    {
      touchEndX := x;
    }

    /** `handleTouchEnd`: a short touch changes nothing, a long one is one step forward or back. */
    method TouchEnd(id: nat, length: nat)
      requires length >= 1
      modifies this`activeIndex
      ensures activeIndex == ApplySwipe(old(activeIndex), SwipeOf(touchStartX, touchEndX), id, length)
    {
      var delta := touchStartX - touchEndX;
      if (if delta < 0 then -delta else delta) < SwipeThreshold {
        return;
      }
      if delta > 0 {
        NextImage(id, length);
      } else {
        PrevImage(id, length);
      }
    }

    function Filtered(): seq<Record>
      reads this
    {
      FilteredData(data, sharedId)
    }

    function Visible(): seq<Record>
      reads this
    {
      PaginatedData(Filtered(), sharedId, isAdmin, currentPage)
    }

    /** What the component returns for its current state. */
    function Render(): View
      reads this
    {
      if AccessRestricted(checkingAuth, isAdmin, sharedId) then Restricted
      else if loading then LoadingDetails
      else
        var total := TotalPages(|Filtered()|);
        Creations(Cards(Visible(), activeIndex, isAdmin),
                  if PagerShown(isAdmin, sharedId, total) then PageButtons(total) else [])
    }
  }

  /** The restricted notice shows exactly for a checked non-admin without a share id. */
  lemma RestrictedExactly(g: MyDetails)
    ensures g.Render() == Restricted <==> !g.checkingAuth && !g.isAdmin && g.sharedId == None
  {
  }

  /** An admin without a share id sees the current page of the whole list and, past one page, the pager. */
  lemma AdminSeesCurrentPage(g: MyDetails)
    requires g.isAdmin && g.sharedId == None && !g.loading
    ensures var total := TotalPages(|g.data|);
            g.Render() == Creations(Cards(PageOf(g.data, g.currentPage), g.activeIndex, true),
                                    if total > 1 then PageButtons(total) else [])
  {
  }

  /**
   * A loaded gallery shows page buttons exactly for an admin without a
   * share id whose list fills more than one page.
   */
  lemma PagerShownExactly(g: MyDetails)
    requires !g.loading
    ensures g.Render().Creations? && g.Render().pageButtons != []
            <==> g.isAdmin && g.sharedId == None && TotalPages(|g.data|) > 1
  {
    if g.isAdmin && g.sharedId == None && TotalPages(|g.data|) > 1 {
      assert |PageButtons(TotalPages(|g.data|))| > 1;
    }
  }

  /** Each pager button an admin sees leads to a non-empty page. */
  lemma AdminPagerLeadsToRecords(g: MyDetails, p: PageNumber)
    requires g.isAdmin && g.sharedId == None && !g.loading
    requires g.Render().Creations? && p in g.Render().pageButtons
    ensures PageOf(g.data, p) != []
  {
    PageButtonsLeadToRecords(g.data, p);
  }

  /**
   * Opening the share link of a listed record shows that record alone,
   * with no pager, whatever the visitor's role.
   */
  lemma ShareLinkShowsOnlyItsRecord(g: MyDetails, origin: string, r: Record)
    requires '?' !in origin && '#' !in origin
    requires g.sharedId == SharedIdFrom(SearchOf(ShareUrl(origin, r.id)))
    requires UniqueIds(g.data) && r in g.data && !g.loading
    ensures g.Render() == Creations([CardOf(r, g.activeIndex, g.isAdmin)], [])
  {
    ShareLinkRoundTrip(origin, r.id);
    SharedIdSelectsRecord(g.data, r);
  }

  /** A share id that names no listed record renders an empty gallery, not an error. */
  lemma UnknownShareIdShowsNothing(g: MyDetails, s: string)
    requires g.sharedId == Some(s) && !g.loading
    requires forall x :: x in g.data ==> DecimalString(x.id) != s
    ensures g.Render() == Creations([], [])
  {
    SharedIdWithoutMatch(g.data, s);
  }

  /**
   * While the auth check is still pending, a visitor without a share id
   * is not yet restricted: once the list has loaded it is rendered whole, unpaged.
   */
  lemma WholeListWhileCheckingAuth(g: MyDetails)
    requires g.checkingAuth && !g.isAdmin && g.sharedId == None && !g.loading
    ensures g.Render() == Creations(Cards(g.data, g.activeIndex, false), [])
  {
  }
}
