/**
 * The dashboard card of the dashboard listing: a tile with the dashboard's
 * thumbnail, title and subtitle, an overflow menu for users who both own and
 * may design the dashboard, and a delete flow (confirmation dialog, deletion
 * request, success or failure notice).
 *
 * What the card renders is a pure function of the dashboard and of the card's
 * state (`Render`); the event handlers are methods of `Card` that update that
 * state. The deletion request itself is external: `ConfirmDeletion` returns
 * the URL the request is for, and its two outcomes are the methods
 * `DeletionSucceeded` and `DeletionFailed`.
 */
module DashboardCard {
  import opened Wrappers
  import opened JsBuiltins

  /** The `dashboard` property. */
  datatype Dashboard = Dashboard(
    name: string,
    description: string,
    url: string,
    hasOwnerPermission: bool,
    hasDesignerPermission: bool)

  /** The DOM element a click came from (`event.currentTarget`), used as the menu's anchor. */
  datatype Anchor = Anchor(element: nat)

  /** `dashboardDeleteActionResult`: `null`, `'success'` or `'fail'`. */
  datatype DeleteResult = Unset | Succeeded | Failed

  /** The card's component state; `isMenuOpen` is `None` until a handler first sets it. */
  datatype CardState = CardState(
    menuAnchor: Option<Anchor>,
    isMenuOpen: Option<bool>,
    deleteDialogOpen: bool,
    deleteResult: DeleteResult)

  /** The state the constructor sets up: no anchor, dialog closed, no result. */
  const InitialState: CardState := CardState(None, None, false, Unset)

  /** An entry of the overflow menu: two links, the export action and the delete action. */
  datatype MenuItem =
    | Design(route: string)
    | Settings(route: string)
    | Export(dashboardName: string, dashboardUrl: string)
    | Delete

  /** The overflow menu's popover: whether it is open, and its entries in order. */
  datatype Menu = Menu(open: bool, items: seq<MenuItem>)

  /** What the card renders. */
  datatype View =
    | SuccessNotice(message: string)
    | Tile(
        title: string,
        subtitle: Option<string>,
        thumbnailRoute: string,
        menuIcon: bool,
        menu: Option<Menu>,
        deleteDialogOpen: bool,
        deleteDialogTitle: string,
        failNoticeOpen: bool,
        failMessage: string)

  // ---------------------------------------------------------------------------
  // Routes
  // ---------------------------------------------------------------------------

  function ViewerRoute(url: string): (r: string)
    ensures |r| == |"/dashboards/"| + |url|
    ensures r[..|"/dashboards/"|] == "/dashboards/" && r[|"/dashboards/"|..] == url
  {
    "/dashboards/" + url
  }
  function DesignerRoute(url: string): (r: string)
    ensures |r| == |"/designer/"| + |url|
    ensures r[..|"/designer/"|] == "/designer/" && r[|"/designer/"|..] == url
  {
    "/designer/" + url
  }
  function SettingsRoute(url: string): (r: string)
    ensures |r| == |"/settings/"| + |url|
    ensures r[..|"/settings/"|] == "/settings/" && r[|"/settings/"|..] == url
  {
    "/settings/" + url
  }

  /**
   * The three routes never collide: a route names its page and, through the
   * text after the prefix, the dashboard.
   */
  lemma {:induction false} RoutesAreDistinct(u: string, v: string)
    ensures ViewerRoute(u) != DesignerRoute(v)
    ensures ViewerRoute(u) != SettingsRoute(v)
    ensures DesignerRoute(u) != SettingsRoute(v)
    ensures ViewerRoute(u) == ViewerRoute(v) ==> u == v
    ensures DesignerRoute(u) == DesignerRoute(v) ==> u == v
    ensures SettingsRoute(u) == SettingsRoute(v) ==> u == v
  {
    assert ViewerRoute(u)[2] == 'a' && DesignerRoute(v)[2] == 'e';
    assert ViewerRoute(u)[1] == 'd' && SettingsRoute(v)[1] == 's';
    assert DesignerRoute(u)[1] == 'd' && SettingsRoute(v)[1] == 's';
    if ViewerRoute(u) == ViewerRoute(v) {
      assert u == ViewerRoute(u)[12..] && v == ViewerRoute(v)[12..];
    }
    if DesignerRoute(u) == DesignerRoute(v) {
      assert u == DesignerRoute(u)[10..] && v == DesignerRoute(v)[10..];
    }
    if SettingsRoute(u) == SettingsRoute(v) {
      assert u == SettingsRoute(u)[10..] && v == SettingsRoute(v)[10..];
    }
  }

  // ---------------------------------------------------------------------------
  // Rendering
  // ---------------------------------------------------------------------------

  /** `description ? description.trim() : null`: only the empty string is falsy. */
  function Subtitle(description: string): (r: Option<string>)
    ensures r.None? <==> description == []
    ensures r.Some? ==> IsTrimmed(r.value) && (r.value == [] <==> AllWhitespace(description))
  {
    if description == [] then None else Some(Trim(description))
  }

  /**
   * The subtitle the header shows: the subtitle when it is truthy, a blank
   * otherwise. It is shown exactly when the description is not all
   * whitespace, and then it has no whitespace at either end.
   */
  function ShownSubtitle(description: string): (r: Option<string>)
    ensures r.None? <==> AllWhitespace(description)
    ensures r.Some? ==> r.value != [] && IsTrimmed(r.value)
  {
    match Subtitle(description)
    case Some(t) => if t != [] then Some(t) else None
    case None => None
  }

  /**
   * The shown subtitle, against `trim`'s reference definition: a description
   * made of whitespace, a non-empty trimmed text and more whitespace shows
   * exactly that text.
   */
  lemma {:induction false} ShownSubtitleOfPadded(a: string, t: string, b: string)
    requires AllWhitespace(a) && AllWhitespace(b) && IsTrimmed(t) && t != []
    ensures ShownSubtitle(a + t + b) == Some(t)
  {
    TrimPadded(a, t, b);
  }

  /**
   * `renderMenu`: nothing unless the user both owns and may design the
   * dashboard; otherwise a popover, open while it has an anchor, whose
   * entries each depend on one of the two permissions.
   */
  function RenderMenu(d: Dashboard, anchor: Option<Anchor>): (r: Option<Menu>)
    ensures r.Some? <==> d.hasOwnerPermission && d.hasDesignerPermission
    ensures r.Some? ==> r.value.open == anchor.Some? && Delete in r.value.items
  {
    if !(d.hasOwnerPermission && d.hasDesignerPermission) then None
    else
      var design := if d.hasDesignerPermission then [Design(DesignerRoute(d.url))] else [];
      var exporting := if d.hasDesignerPermission then [Export(d.name, d.url)] else [];
      var settings := if d.hasOwnerPermission then [Settings(SettingsRoute(d.url))] else [];
      var delete := if d.hasOwnerPermission then [Delete] else [];
      Some(Menu(anchor.Some?, design + settings + exporting + delete))
  }

  /**
   * The menu exists exactly when both permissions hold, so its entries are
   * always all four: Design, Settings, Export and Delete, in that order; the
   * popover is open exactly when it has an anchor.
   */
  lemma {:induction false} MenuGating(d: Dashboard, anchor: Option<Anchor>)
    ensures RenderMenu(d, anchor).Some? <==> d.hasOwnerPermission && d.hasDesignerPermission
    ensures RenderMenu(d, anchor).Some? ==>
      && RenderMenu(d, anchor).value.open == anchor.Some?
      && RenderMenu(d, anchor).value.items ==
           [Design(DesignerRoute(d.url)), Settings(SettingsRoute(d.url)), Export(d.name, d.url), Delete]
  {
  }

  /** `render`: the success notice alone after a successful deletion, the tile otherwise. */
  function Render(d: Dashboard, s: CardState): (v: View)
    ensures v.SuccessNotice? <==> s.deleteResult == Succeeded
    ensures v.Tile? ==> v.title == d.name && (v.menu.Some? <==> v.menuIcon)
  {
    if s.deleteResult == Succeeded then
      SuccessNotice("Dashboard '" + d.name + "' deleted successfully")
    else
      Tile(
        d.name,
        ShownSubtitle(d.description),
        ViewerRoute(d.url),
        d.hasOwnerPermission && d.hasDesignerPermission,
        RenderMenu(d, s.menuAnchor),
        s.deleteDialogOpen,
        "Do you want to delete dashboard '" + d.name + "'?",
        s.deleteResult == Failed,
        "Cannot delete dashboard '" + d.name + "'")
  }

  /**
   * What the card shows, state by state: after a successful deletion only the
   * success notice naming the dashboard (no tile, no menu, no dialog);
   * otherwise the tile, whose subtitle is `ShownSubtitle` of the description,
   * whose menu is `RenderMenu` of the anchor and, like the menu icon, appears
   * exactly when both permissions hold, whose dialog follows the dialog flag,
   * and whose failure notice is open exactly when the deletion failed; both
   * texts name the dashboard.
   */
  lemma {:induction false} RenderedView(d: Dashboard, s: CardState)
    ensures Render(d, s).SuccessNotice? <==> s.deleteResult == Succeeded
    ensures Render(d, s).SuccessNotice? ==>
      Render(d, s).message == "Dashboard '" + d.name + "' deleted successfully"
    ensures Render(d, s).Tile? ==>
      var v := Render(d, s);
      && v.title == d.name
      && v.subtitle == ShownSubtitle(d.description)
      && v.menu == RenderMenu(d, s.menuAnchor)
      && v.thumbnailRoute == ViewerRoute(d.url)
      && (v.menuIcon <==> d.hasOwnerPermission && d.hasDesignerPermission)
      && (v.menu.Some? <==> v.menuIcon)
      && (v.menu.Some? ==> (v.menu.value.open <==> s.menuAnchor.Some?))
      && (v.deleteDialogOpen <==> s.deleteDialogOpen)
      && (v.failNoticeOpen <==> s.deleteResult == Failed)
      && v.deleteDialogTitle == "Do you want to delete dashboard '" + d.name + "'?"
      && v.failMessage == "Cannot delete dashboard '" + d.name + "'"
  {
    MenuGating(d, s.menuAnchor);
  }

  /** `isMenuOpen` is written by handlers but never read when rendering. */
  lemma {:induction false} RenderIgnoresIsMenuOpen(d: Dashboard, s: CardState, flag: Option<bool>)
    ensures Render(d, s.(isMenuOpen := flag)) == Render(d, s)
  {
  }

  /** JavaScript truthiness of `isMenuOpen`: `undefined` is falsy. */
  function IsTruthy(flag: Option<bool>): (b: bool)
    ensures flag.None? ==> !b
    ensures flag.Some? ==> b == flag.value
  {
    flag == Some(true)
  }

  // ---------------------------------------------------------------------------
  // The card component
  // ---------------------------------------------------------------------------

  class Card {
    const dashboard: Dashboard

    var menuAnchor: Option<Anchor>
    var isMenuOpen: Option<bool>
    var deleteDialogOpen: bool
    var deleteResult: DeleteResult

    function State(): CardState
      reads this
    {
      CardState(menuAnchor, isMenuOpen, deleteDialogOpen, deleteResult)
    }

    /** What the card currently renders. */
    function Rendered(): View
      reads this
    {
      Render(dashboard, State())
    }

    constructor (dashboard: Dashboard)
      ensures this.dashboard == dashboard
      ensures State() == InitialState
    {
      this.dashboard := dashboard;
      menuAnchor := None;
      isMenuOpen := None;
      deleteDialogOpen := false;
      deleteResult := Unset;
    }

    /** The menu icon's `onClick`: anchor the popover at the icon. */
    method ClickMenuIcon(target: Anchor)
      modifies this
      ensures State() == old(State()).(menuAnchor := Some(target))
    {
      menuAnchor := Some(target);
    }

    /** `handleMenuIconClick`: flip `isMenuOpen` and anchor the popover at the click's target. */
    method HandleMenuIconClick(target: Anchor)
      modifies this
      ensures State() == old(State()).(isMenuOpen := Some(!IsTruthy(old(isMenuOpen))), menuAnchor := Some(target))
    {
      isMenuOpen := Some(!IsTruthy(isMenuOpen));
      menuAnchor := Some(target);
    }

    /** `handleMenuCloseRequest`: clear `isMenuOpen` and nothing else. */
    method HandleMenuCloseRequest()
      modifies this
      ensures State() == old(State()).(isMenuOpen := Some(false))
    {
      isMenuOpen := Some(false);
    }

    /** The popover's `onClose`: drop the anchor, which closes the popover. */
    method ClosePopover()
      modifies this
      ensures State() == old(State()).(menuAnchor := None)
    {
      menuAnchor := None;
    }

    /** `hideDashboardDeleteConfirmDialog` (the dialog's "No" and its close request). */
    method HideDeleteConfirmDialog()
      modifies this
      ensures State() == old(State()).(deleteDialogOpen := false)
    {
      deleteDialogOpen := false;
    }

    /** `showDashboardDeleteConfirmDialog` (the Delete entry): open the dialog, clear `isMenuOpen`; the anchor stays. */
    method ShowDeleteConfirmDialog()
      modifies this
      ensures State() == old(State()).(deleteDialogOpen := true, isMenuOpen := Some(false))
    {
      deleteDialogOpen := true;
      isMenuOpen := Some(false);
    }

    /**
     * `handleDashboardDeletionConfirm` (the dialog's "Yes"): close the dialog
     * and issue the deletion request, whose URL is returned.
     */
    method ConfirmDeletion() returns (requestUrl: string)
      modifies this
      ensures requestUrl == dashboard.url
      ensures State() == old(State()).(deleteDialogOpen := false)
    {
      HideDeleteConfirmDialog();
      requestUrl := dashboard.url;
    }

    /** The deletion request resolved. */
    method DeletionSucceeded()
      modifies this
      ensures State() == old(State()).(deleteResult := Succeeded)
    {
      deleteResult := Succeeded;
    }

    /** The deletion request was rejected. */
    method DeletionFailed()
      modifies this
      ensures State() == old(State()).(deleteResult := Failed)
    {
      deleteResult := Failed;
    }

    /** The failure notice's `onRequestClose`: reset the result to `null`. */
    method DismissFailNotice()
      modifies this
      ensures State() == old(State()).(deleteResult := Unset)
    {
      deleteResult := Unset;
    }

    /** The thumbnail's `onClick`: the route pushed onto the history, the dashboard's viewer. */
    method ClickThumbnail() returns (route: string)
      ensures route == ViewerRoute(dashboard.url)
      ensures route[..|"/dashboards/"|] == "/dashboards/" && route[|"/dashboards/"|..] == dashboard.url
    {
      route := ViewerRoute(dashboard.url);
    }
  }

  /**
   * The delete flow as a caller sees it: open the menu, choose Delete,
   * confirm; a failed request keeps the tile and opens the failure notice
   * until it is dismissed; a second confirmed request that succeeds replaces
   * the tile by the success notice.
   */
  method DeleteFlow(d: Dashboard, icon: Anchor)
    requires d.hasOwnerPermission && d.hasDesignerPermission
  {
    var card := new Card(d);
    card.ClickMenuIcon(icon);
    RenderedView(d, card.State());
    assert card.Rendered().Tile? && card.Rendered().menu.value.open;

    card.ShowDeleteConfirmDialog();
    RenderedView(d, card.State());
    assert card.Rendered().deleteDialogOpen;

    var url := card.ConfirmDeletion();
    assert url == d.url && !card.deleteDialogOpen;

    card.DeletionFailed();
    RenderedView(d, card.State());
    assert card.Rendered().Tile? && card.Rendered().failNoticeOpen;

    card.DismissFailNotice();
    RenderedView(d, card.State());
    assert !card.Rendered().failNoticeOpen;

    card.ShowDeleteConfirmDialog();
    url := card.ConfirmDeletion();
    assert url == d.url;

    card.DeletionSucceeded();
    RenderedView(d, card.State());
    assert card.Rendered().SuccessNotice?;
  }
}
