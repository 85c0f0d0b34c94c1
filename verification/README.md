# Dashboard card and report-generation panel, modelled in Dafny

This project models two React components of the dashboards web component:

- **The report-generation panel** (`DashboardReportGenerationCard`). It is an expandable card that captures the dashboard page on screen. A capture stores a screenshot record in `localStorage` under `_dashboard-report:<page name>` and appends the page name to an ordered list. Duplicates are allowed. A listed page can be removed again. The panel also holds the report's page size (`A4`, `Letter`, `A3`) and orientation (`Landscape`, `Portrait`).
- **The dashboard card** (`DashboardCard`). It is the listing tile of one dashboard: a thumbnail that opens the dashboard, a title and subtitle, and an overflow menu (Design, Settings, Export, Delete) shown to users who both own and may design the dashboard. It also has a delete flow: a confirmation dialog, then the deletion request, then a success notice that replaces the tile or a failure notice that can be dismissed.

Files:

- `wrappers.dfy`: `Option`, used for JavaScript's `undefined`/`null`.
- `js_builtins.dfy` (module `JsBuiltins`): the ECMAScript built-ins the components depend on. These are `indexOf`, `splice(start, 1)` with a negative start, `split('/')` with `Join` as its inverse, and `trim`.
- `report_generation_card.dfy` (module `ReportGenerationCard`): the page-key parse, the page lookup, the page list after a removal, a `LocalStorage` class, and the panel as a class `Card` whose methods update its fields and the storage.
- `dashboard_card.dfy` (module `DashboardCard`): rendering as a pure function `Render` of the dashboard and the card state, and the card as a class `Card` whose event handlers update that state.

The browser is reduced to parameters. The current URL is an argument of `CapturePage`. The html2canvas screenshot is an opaque `CaptureRecord` argument. The menu anchor element is an opaque `Anchor`. The deletion request's outcome is one of two methods, `DeletionSucceeded` and `DeletionFailed`.

Four behaviours of the code are easy to misread; the model keeps them as written:

- The whole menu is gated on *both* permissions (`DashboardCard.jsx:170-172`). The per-item permission checks inside it therefore never exclude anything, and the menu always has all four entries (`MenuGating`).
- `removePage` deletes the storage key `name`, not the key `_dashboard-report:<name>` that `capturePage` wrote (`DashboardReportGenerationCard.jsx:127` against `:143`). So a page's capture record survives every removal of that page's name (`RemovePage`'s third ensures clause, and `CaptureTwiceRemoveTwice`). It can still be deleted by removing a different name that happens to equal it: a page named `_dashboard-report:Sales` is stored under `_dashboard-report:_dashboard-report:Sales`, and removing that page's name for the last time deletes the bare key `_dashboard-report:Sales`, which is the capture record of page `Sales`.
- `removePage` for a name that is not listed removes the *last* entry, because `indexOf` gives -1 and `splice(-1, 1)` counts from the end (`RemoveUnlistedName`).
- The menu icon that is actually rendered (`DashboardCard.jsx:250`) only sets the anchor. `handleMenuIconClick` and `handleMenuCloseRequest` are not wired to any element, but they are modelled. `isMenuOpen` is never read when rendering (`RenderIgnoresIsMenuOpen`). It starts out `undefined`, which is `None` here.

## Model

| member | source | states |
|---|---|---|
| JsBuiltins.IndexOf | components/dashboards-web-component/src/viewer/components/DashboardReportGenerationCard.jsx:122 | `indexOf` is -1 exactly when the name is absent; otherwise it is an index holding the name with no earlier occurrence |
| JsBuiltins.SpliceStart | components/dashboards-web-component/src/viewer/components/DashboardReportGenerationCard.jsx:123 | `splice`'s start is within the array; a start in range is kept, and a negative start counts back from the end |
| JsBuiltins.SpliceOne | components/dashboards-web-component/src/viewer/components/DashboardReportGenerationCard.jsx:123 | `splice(start, 1)` drops exactly the element at the actual start and keeps everything before and after it; past the end it changes nothing |
| JsBuiltins.Split | components/dashboards-web-component/src/viewer/components/DashboardReportGenerationCard.jsx:133 | `split('/')` yields at least one piece, and no piece contains a slash |
| JsBuiltins.JoinSplit | components/dashboards-web-component/src/viewer/components/DashboardReportGenerationCard.jsx:133 | joining the pieces of a split with `/` gives back the URL |
| JsBuiltins.SplitJoin | components/dashboards-web-component/src/viewer/components/DashboardReportGenerationCard.jsx:133 | splitting slash-free pieces joined by `/` gives back the pieces (the other direction of the round trip) |
| JsBuiltins.SplitLast | components/dashboards-web-component/src/viewer/components/DashboardReportGenerationCard.jsx:133-134 | the last piece is the longest slash-free suffix; when it is not the whole string, a slash precedes it and the other pieces are the split of the text before that slash |
| JsBuiltins.TrimStart | components/dashboards-web-component/src/listing/components/DashboardCard.jsx:222 | the result is a suffix of the input, only whitespace was removed, and it does not start with whitespace |
| JsBuiltins.TrimEnd | components/dashboards-web-component/src/listing/components/DashboardCard.jsx:222 | the result is a prefix of the input, only whitespace was removed, and it does not end with whitespace |
| JsBuiltins.Trim | components/dashboards-web-component/src/listing/components/DashboardCard.jsx:222 | `trim()` leaves no whitespace at either end, and is empty exactly when the input is all whitespace |
| JsBuiltins.TrimPadded | components/dashboards-web-component/src/listing/components/DashboardCard.jsx:222 | `trim` of whitespace + a trimmed text + whitespace is that text (reference definition) |
| JsBuiltins.TrimIdempotent | components/dashboards-web-component/src/listing/components/DashboardCard.jsx:222 | trimming twice is the same as trimming once |
| JsBuiltins.TrimOfTrimmed | components/dashboards-web-component/src/listing/components/DashboardCard.jsx:222 | a string with no whitespace at either end is its own `trim` |
| ReportGenerationCard.ReportKeyInjective | components/dashboards-web-component/src/viewer/components/DashboardReportGenerationCard.jsx:143 | distinct page names are stored under distinct `_dashboard-report:` keys |
| ReportGenerationCard.ReportKeyIsNotBareName | components/dashboards-web-component/src/viewer/components/DashboardReportGenerationCard.jsx:126-128 | the key that removal deletes (the bare name) is never the key that capture wrote |
| ReportGenerationCard.CurrentPageKeyIsLastSegment | components/dashboards-web-component/src/viewer/components/DashboardReportGenerationCard.jsx:132-134 | the page key is the longest slash-free text at the end of the URL, ignoring one trailing slash; there is no key only for the empty URL |
| ReportGenerationCard.CurrentPageKey | components/dashboards-web-component/src/viewer/components/DashboardReportGenerationCard.jsx:132-134 | the page key (the last URL segment, or the one before it after a trailing slash) contains no slash, and the empty URL has none; `CurrentPageKeyIsLastSegment` states it in full |
| ReportGenerationCard.TrailingSlashSameKey | components/dashboards-web-component/src/viewer/components/DashboardReportGenerationCard.jsx:132-134 | appending one slash to a non-empty URL that does not already end in a slash leaves the page key unchanged, so `/a/b` and `/a/b/` name the same page |
| ReportGenerationCard.FindPage | components/dashboards-web-component/src/viewer/components/DashboardReportGenerationCard.jsx:135-137 | `find` returns a page of the list whose id is the key, and returns nothing exactly when no page has that id |
| ReportGenerationCard.FindPageIsFirst | components/dashboards-web-component/src/viewer/components/DashboardReportGenerationCard.jsx:135-137 | `find` returns the first page with a matching id |
| ReportGenerationCard.RemoveListedName | components/dashboards-web-component/src/viewer/components/DashboardReportGenerationCard.jsx:120-124 | removing a listed name drops exactly its first occurrence, keeps the rest in order, shortens the list by one and removes one copy from the multiset |
| ReportGenerationCard.FirstOccurrence | components/dashboards-web-component/src/viewer/components/DashboardReportGenerationCard.jsx:122 | for a listed name, `indexOf` is the index of its first occurrence |
| ReportGenerationCard.RemovedAt | components/dashboards-web-component/src/viewer/components/DashboardReportGenerationCard.jsx:121-123 | when `indexOf` finds the name at `i`, the copy after `splice` leaves out exactly entry `i`, is one shorter and holds one copy of the name fewer |
| ReportGenerationCard.AfterRemove | components/dashboards-web-component/src/viewer/components/DashboardReportGenerationCard.jsx:121-123 | the copy after `splice(indexOf(name), 1)` is one entry shorter, unless the list is empty; `RemoveListedName` and `RemoveUnlistedName` say which entry goes |
| ReportGenerationCard.RemoveUnlistedName | components/dashboards-web-component/src/viewer/components/DashboardReportGenerationCard.jsx:122-123 | removing an unlisted name drops the last entry of a non-empty list and leaves an empty list empty |
| ReportGenerationCard.RemoveAfterCapture | components/dashboards-web-component/src/viewer/components/DashboardReportGenerationCard.jsx:120-124 | capture then remove: a new name leaves the list as it was; an already listed name loses its earlier occurrence and keeps the appended one |
| ReportGenerationCard.DuplicateSurvivesOneRemoval | components/dashboards-web-component/src/viewer/components/DashboardReportGenerationCard.jsx:120-128 | a page captured twice is still listed after one removal, so its storage key is not deleted then |
| ReportGenerationCard.LocalStorage.SetItem | components/dashboards-web-component/src/viewer/components/DashboardReportGenerationCard.jsx:143-144 | `setItem` binds the key to the record and changes no other key |
| ReportGenerationCard.LocalStorage.RemoveItem | components/dashboards-web-component/src/viewer/components/DashboardReportGenerationCard.jsx:127 | `removeItem` unbinds the key, even if it was not bound, and changes no other key |
| ReportGenerationCard.Card.constructor | components/dashboards-web-component/src/viewer/components/DashboardReportGenerationCard.jsx:31-38 | initially the panel is not expanded, the page list is empty, the page size is `A4` and the orientation is `Landscape` |
| ReportGenerationCard.Card.HandleCardClick | components/dashboards-web-component/src/viewer/components/DashboardReportGenerationCard.jsx:116-118 | expanding or collapsing sets `expanded` and nothing else |
| ReportGenerationCard.Card.SelectPageSize | components/dashboards-web-component/src/viewer/components/DashboardReportGenerationCard.jsx:71-85 | choosing one of `A4`/`Letter`/`A3` sets the page size only; the page list, orientation and expansion are unchanged |
| ReportGenerationCard.Card.SelectOrientation | components/dashboards-web-component/src/viewer/components/DashboardReportGenerationCard.jsx:87-101 | choosing `Landscape`/`Portrait` sets the orientation only; the page list, page size and expansion are unchanged |
| ReportGenerationCard.Card.CapturePage | components/dashboards-web-component/src/viewer/components/DashboardReportGenerationCard.jsx:131-149 | with a matching page, the storage gains `_dashboard-report:<name>` with the capture and the name is appended after the unchanged earlier entries (again if already listed); with no match, neither the list nor the storage changes |
| ReportGenerationCard.Card.RemovePage | components/dashboards-web-component/src/viewer/components/DashboardReportGenerationCard.jsx:120-129 | the list becomes `AfterRemove` of the old list; the storage key `name` is deleted exactly when `name` is no longer listed, no other key changes, and the capture record under the prefixed key stays |
| DashboardCard.RoutesAreDistinct | components/dashboards-web-component/src/listing/components/DashboardCard.jsx:238 | the viewer, designer and settings routes never coincide, and each route determines the dashboard URL |
| DashboardCard.ViewerRoute | components/dashboards-web-component/src/listing/components/DashboardCard.jsx:238 | the thumbnail route is the `/dashboards/` prefix followed by the dashboard URL |
| DashboardCard.DesignerRoute | components/dashboards-web-component/src/listing/components/DashboardCard.jsx:176 | the Design entry's route is the `/designer/` prefix followed by the dashboard URL |
| DashboardCard.SettingsRoute | components/dashboards-web-component/src/listing/components/DashboardCard.jsx:191 | the Settings entry's route is the `/settings/` prefix followed by the dashboard URL |
| DashboardCard.Subtitle | components/dashboards-web-component/src/listing/components/DashboardCard.jsx:222 | the subtitle is `null` exactly for the empty description (the only falsy string); otherwise it is trimmed, and empty exactly when the description is all whitespace |
| DashboardCard.ShownSubtitle | components/dashboards-web-component/src/listing/components/DashboardCard.jsx:222 | a subtitle is shown exactly when the description is not all whitespace, and the shown subtitle is non-empty and trimmed |
| DashboardCard.ShownSubtitleOfPadded | components/dashboards-web-component/src/listing/components/DashboardCard.jsx:222 | a description made of whitespace, a trimmed text and more whitespace shows exactly that text |
| DashboardCard.RenderMenu | components/dashboards-web-component/src/listing/components/DashboardCard.jsx:169-212 | the menu exists exactly when both permissions hold, is open exactly when anchored, and has the Delete entry; `MenuGating` gives all its entries |
| DashboardCard.MenuGating | components/dashboards-web-component/src/listing/components/DashboardCard.jsx:169-212 | the menu exists iff both permissions hold; its items are then exactly Design (`/designer/<url>`), Settings (`/settings/<url>`), Export and Delete, in that order; it is open iff it has an anchor |
| DashboardCard.Render | components/dashboards-web-component/src/listing/components/DashboardCard.jsx:215-265 | the success notice is rendered exactly when the result is `success`; the tile carries the dashboard name and shows the menu exactly when it shows the menu icon; `RenderedView` states the subtitle, the menu, the dialog, the notices and their texts |
| DashboardCard.RenderedView | components/dashboards-web-component/src/listing/components/DashboardCard.jsx:215-265 | with result `success` only the success notice, naming the dashboard, is rendered; otherwise the tile, whose subtitle is `ShownSubtitle` of the description (shown iff not all whitespace, trimmed), whose menu is `RenderMenu` of the anchor (menu icon and menu iff both permissions, open iff anchored), whose dialog is open as its flag says and whose failure notice is open iff the result is `fail`; the dialog title and the failure message name the dashboard |
| DashboardCard.RenderIgnoresIsMenuOpen | components/dashboards-web-component/src/listing/components/DashboardCard.jsx:93-116 | what is rendered does not depend on `isMenuOpen` |
| DashboardCard.IsTruthy | components/dashboards-web-component/src/listing/components/DashboardCard.jsx:96 | `!this.state.isMenuOpen` treats `undefined` as false and a boolean as itself |
| DashboardCard.Card.constructor | components/dashboards-web-component/src/listing/components/DashboardCard.jsx:73-79 | initially there is no anchor, `isMenuOpen` is undefined, the dialog is closed and there is no result |
| DashboardCard.Card.ClickMenuIcon | components/dashboards-web-component/src/listing/components/DashboardCard.jsx:250 | the icon click anchors the popover at the icon and changes nothing else |
| DashboardCard.Card.HandleMenuIconClick | components/dashboards-web-component/src/listing/components/DashboardCard.jsx:93-99 | flips `isMenuOpen`, with undefined counting as false, and sets the anchor; nothing else changes |
| DashboardCard.Card.HandleMenuCloseRequest | components/dashboards-web-component/src/listing/components/DashboardCard.jsx:101-105 | sets `isMenuOpen` to false and nothing else |
| DashboardCard.Card.ClosePopover | components/dashboards-web-component/src/listing/components/DashboardCard.jsx:203 | the popover's close clears the anchor and nothing else |
| DashboardCard.Card.HideDeleteConfirmDialog | components/dashboards-web-component/src/listing/components/DashboardCard.jsx:107-109 | closes the dialog and nothing else |
| DashboardCard.Card.ShowDeleteConfirmDialog | components/dashboards-web-component/src/listing/components/DashboardCard.jsx:111-116 | opens the dialog and sets `isMenuOpen` false; the anchor and result are unchanged |
| DashboardCard.Card.ConfirmDeletion | components/dashboards-web-component/src/listing/components/DashboardCard.jsx:118-120 | closes the dialog first, changes nothing else, and requests deletion of the dashboard's URL |
| DashboardCard.Card.DeletionSucceeded | components/dashboards-web-component/src/listing/components/DashboardCard.jsx:121 | a resolved request sets the result to `success` |
| DashboardCard.Card.DeletionFailed | components/dashboards-web-component/src/listing/components/DashboardCard.jsx:122 | a rejected request sets the result to `fail` |
| DashboardCard.Card.DismissFailNotice | components/dashboards-web-component/src/listing/components/DashboardCard.jsx:165 | dismissing the failure notice resets the result to null |
| DashboardCard.Card.ClickThumbnail | components/dashboards-web-component/src/listing/components/DashboardCard.jsx:238 | the thumbnail click pushes `/dashboards/` followed by the dashboard URL |

## Left out

- html2canvas and `canvas.toDataURL`: these are browser calls. The screenshot (image data, width, height, timestamp) is an opaque `CaptureRecord` argument of `CapturePage`. `JSON.stringify` is not modelled either: the storage holds records, not JSON text.
- The window's URL is read in `capturePage`; here it is an argument.
- Asynchrony: `capturePage` looks up the page before the screenshot and writes after it. The model does both in one step, so it does not capture state changes that land in between, nor a component unmounted while a capture or deletion is in flight. Each deletion outcome is its own method, and nothing orders them after `ConfirmDeletion`.
- The 4000 ms auto-hide of both notices: this is timing.
- `DashboardAPI.deleteDashboardByID`, `DashboardExporter.exportDashboard`, `DashboardThumbnail` and `ReportGenerationButton` are not part of this model. Only the deletion outcome, the URL handed to the request, the export entry's arguments and the pushed routes are modelled. The thumbnail image URL is left out. The report button receives the panel's own fields.
- JSX layout, Material-UI properties, styles and `react-intl` messages. The card's three literal notice and dialog texts are kept.
- `event.preventDefault()` in `handleMenuIconClick`: it has no effect on the card's state.
- `WidgetClassRegistry` (`src/utils/WidgetClassRegistry`, which its test imports): not modelled. This project covers the two card components only.
- The duplicate `propTypes` assignments: they do not affect behaviour.
- Page ids and page names are taken to be strings. The `pages` property is only declared as an array (`DashboardReportGenerationCard.jsx:153`), so nothing in the code guarantees this. A page with a non-string id is not modelled. Nor is a page without a `name`, for which the capture would write `_dashboard-report:undefined` and list `undefined`.
- The dashboard description is taken to be a string. The first `propTypes` assignment declares it a required string (`DashboardCard.jsx:270`). But the second assignment at `DashboardCard.jsx:278-280` replaces the whole object, so that declaration is not in force and nothing checks the description's type. An `undefined` description is not modelled.
- ReportGenerationCard.Card.CapturePage: a failed screenshot (html2canvas rejects) or a failed storage write (`localStorage.setItem` throws, because storage is full or disabled) is not modelled. In either case nothing is written and nothing is appended, because the name is pushed only after the write. In the model `SetItem` cannot fail, and a capture with a matching page always writes and appends.
- ReportGenerationCard.Card.SelectPageSize: requires the value to be one of the offered sizes, because the select field only offers those; an arbitrary value is not modelled.
- ReportGenerationCard.Card.SelectOrientation: requires the value to be one of the offered orientations, for the same reason.
