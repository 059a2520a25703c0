# Mobile app builder: document, data binding and interactions

A model of the core of a visual mobile-app builder, written in Dafny. Users
assemble screens from components (text, buttons, images, product and news
grids, detail views, a toolbar, a video player). They bind component
properties to the columns of a spreadsheet dataset, and they try the result
in a preview mode where clicks navigate between screens.

The model covers eight modules:

- `Js` (js.dfy) and `JsReplace` (js_replace.dfy): the slice of JavaScript
  the code relies on.
  - Dynamic values and truthiness.
  - `String(v)` and `||`.
  - `indexOf`, `includes` and `split`.
  - `replace` with a string pattern, including its `$` replacement patterns.
  - `slice` and ASCII `toLowerCase`.
- `Document` (document.dfy): the document store, i.e. the screens, the
  active screen, the selection and the preview flag, with every mutation.
  It also holds the initial document and the editor's lookup of the
  components to show.
- `DataSource` (datasource.dfy): the data store.
  - The setters.
  - The `fetchData` pipeline: spreadsheet-id extraction, rejection of
    published links, the `DEMO` dataset, stripping the reply's wrapper,
    zipping cells against header labels, and the fallback dataset.
- `Binding` (binding.dfy): the renderer's pure helpers.
  - Text and image resolution.
  - The list filter and limit, and per-card fallbacks.
  - The product and news detail views.
  - `{column}` link templates.
  - YouTube id extraction.
- `Actions` (actions.dfy): the click handlers. Each returns a list of commands
  for the two stores, and `Run` applies them in order.
- `DragDrop` (dragdrop.dfy): the editor's drag-end handler and `arrayMove`.
- `Templates` (templates.dfy): the bundled e-commerce template and the initial
  document. Lemmas state that their ids are distinct and that every column
  they read and every screen they navigate to exists, including the home
  screen a toolbar's back button falls back to.

Where the code is looser than a caller might expect:

- Removing a component does not clear a selection that named it
  (`Document.RemoveSelectedLeavesDanglingSelection`).
- Navigating to an id that no screen carries is not refused. The id is
  stored, and the editor then shows no components
  (`Document.DanglingActiveShowsNothing`).
- Once there is data, text bound to a column the first row lacks shows
  `undefined`, not the static text or the default
  (`Binding.GetTextReadsOnlyFirstRow`). This holds for a column name that is
  not an `Object.prototype` member; see `Js.Get` under "Left out".
- A spreadsheet row with more cells than the header gets the key
  `undefined`, so rows are not always keyed by columns only
  (`DataSource.LongRowEscapesColumns`).
- A value substituted into a link template is scanned again by the keys
  after it (`Binding.FilledValuesAreRescanned`).
- Clicks on grid cards stop propagation, so in edit mode a card click does
  nothing at all, not even select the grid.
- The template's buy button keeps its caption under `label`, which the
  renderer never reads, so it shows `Text Block`
  (`Templates.BuyButtonShowsDefaultText`).

## Model

| member | source | states |
|---|---|---|
| Js.Slice | frontend/src/components/builder/SortableItem.tsx:271 | `slice(0, end)` is a prefix whose length is `end` capped at the length, or the length minus `-end` (at least 0) for a negative end |
| Js.NatToString | frontend/src/components/builder/SortableItem.tsx:288 | `String(n)` of a natural number is a non-empty run of digits with no leading zero |
| Js.DecimalRoundTrip | frontend/src/components/builder/SortableItem.tsx:288-291 | reading a printed number back gives the number |
| Js.NatToStringInjective | frontend/src/components/builder/SortableItem.tsx:288 | distinct numbers print as distinct strings |
| Js.IndexOf | frontend/src/components/builder/SortableItem.tsx:269 | `indexOf` is -1 exactly when the pattern occurs nowhere, and otherwise the first position where it occurs |
| Js.Before | frontend/src/components/builder/SortableItem.tsx:418 | `split(pat)[0]` is the prefix before the first occurrence (all of the text if none), and it holds no occurrence |
| Js.After | frontend/src/components/builder/SortableItem.tsx:418 | the text after the first occurrence of the pattern, or all of the text when there is none; together with the pattern it is found at that occurrence |
| Js.ExpandReplacement | frontend/src/components/builder/SortableItem.tsx:154 | a replacement without `$` is inserted literally (the `$` patterns are stated by the `JsReplace` lemmas) |
| Js.ReplaceFirst | frontend/src/components/builder/SortableItem.tsx:154 | `replace` with a string pattern leaves a text without the pattern unchanged, and otherwise puts a `$`-free replacement in place of the first occurrence only |
| JsReplace.DollarPattern | frontend/src/components/builder/SortableItem.tsx:154 | in a replacement, `$$` inserts one `$` |
| JsReplace.MatchPattern | frontend/src/components/builder/SortableItem.tsx:154 | in a replacement, `$&` inserts the matched text |
| JsReplace.BeforePattern | frontend/src/components/builder/SortableItem.tsx:154 | in a replacement, `` $` `` inserts the text before the match |
| JsReplace.AfterPattern | frontend/src/components/builder/SortableItem.tsx:154 | in a replacement, `$'` inserts the text after the match |
| JsReplace.GroupPatternIsLiteral | frontend/src/components/builder/SortableItem.tsx:154 | a string pattern has no capture groups, so `$1` stays literal |
| JsReplace.ExpandEscaped | frontend/src/components/builder/SortableItem.tsx:154 | a replacement with every `$` doubled inserts the original text exactly, so escaping is the inverse of expansion |
| JsReplace.ReplaceByMatchIsIdentity | frontend/src/components/builder/SortableItem.tsx:154 | replacing the first occurrence by `$&` gives the text back unchanged |
| JsReplace.ReplaceAtStart | frontend/src/components/builder/SortableItem.tsx:154 | a text starting with the pattern has that start replaced and its rest kept |
| JsReplace.ReplaceFirstAfterPrefix | frontend/src/components/builder/SortableItem.tsx:154 | a prefix in which no occurrence starts is kept, and the replacement happens in the rest |
| Js.Utf16Length | frontend/src/components/builder/SortableItem.tsx:423 | `length` counts UTF-16 code units: at least one and at most two per character, and exactly one per character iff every character is in the Basic Multilingual Plane |
| Js.Utf16LengthConcat | frontend/src/components/builder/SortableItem.tsx:423 | the code-unit length of a concatenation is the sum of the lengths |
| Js.Lower | frontend/src/components/builder/SortableItem.tsx:267-268 | lower-casing keeps the length and maps each character |
| Document.FindScreen | frontend/src/app/page.tsx:18 | the lookup finds the first screen with the id, and finds nothing exactly when no screen has it |
| Document.ActiveComponents | frontend/src/app/page.tsx:18 | the editor shows the components of the first screen with the active id, or none when the id is dangling |
| Document.SetPreviewMode | frontend/src/stores/appStore.ts:101 | sets the flag and always clears the selection; the screens and the active id are unchanged |
| Document.AddScreen | frontend/src/stores/appStore.ts:103-110 | appends one empty screen `screen-<uuid>` after the old ones, activates it and clears the selection |
| Document.AddScreenShowsEmptyScreen | frontend/src/stores/appStore.ts:103-110 | with a fresh id the new screen is the one shown, and it shows no components |
| Document.SetActiveScreen | frontend/src/stores/appStore.ts:112 | stores any id unchecked and clears the selection; the result names a screen exactly when the id does |
| Document.DanglingActiveShowsNothing | frontend/src/stores/appStore.ts:112 | activating an unknown id leaves the editor showing no components |
| Document.SelectComponent | frontend/src/stores/appStore.ts:122 | sets the selection to any id, or to none, and changes nothing else |
| Document.LoadTemplate | frontend/src/stores/appStore.ts:147-151 | replaces the screens, activates the first one (or `screen-home` for an empty list) and clears the selection |
| Document.LoadTemplateShowsFirstScreen | frontend/src/stores/appStore.ts:147-151 | after loading a non-empty template the editor shows its first screen's components |
| Document.EditActive | frontend/src/stores/appStore.ts:114-145 | a component operation rewrites exactly the screens whose id is the active id and leaves the others as they were |
| Document.EditActiveShows | frontend/src/stores/appStore.ts:114-145 | when the active screen exists, the shown list changes by the edit alone and the active screen still exists |
| Document.EditDanglingIsNoOp | frontend/src/stores/appStore.ts:114-145 | when no screen carries the active id, a component operation changes nothing |
| Document.AddComponent | frontend/src/stores/appStore.ts:114-120 | appends the component to every active screen and leaves other screens unchanged; a dangling active id makes it a no-op |
| Document.AddComponentAppends | frontend/src/stores/appStore.ts:114-120 | the shown list becomes the old list plus the new component at its end |
| Document.AddComponentsInOrder | frontend/src/stores/appStore.ts:114-120 | any run of additions appends exactly its components, in insertion order |
| Document.MergeProps | frontend/src/stores/appStore.ts:127 | the shallow merge has both key sets; patched keys take the patch's value and the others keep theirs |
| Document.MergeTwiceKeepsBoth | frontend/src/stores/appStore.ts:127 | merging `{a: x}` and then `{b: y}` keeps both keys with their values |
| Document.UpdateComponent | frontend/src/stores/appStore.ts:124-130 | on active screens each component with the id gets the merged props and every other component is untouched; other screens are unchanged |
| Document.UpdateAbsentIsNoOp | frontend/src/stores/appStore.ts:124-130 | updating an id no active screen holds leaves the state unchanged |
| Document.UpdateTwiceKeepsBoth | frontend/src/stores/appStore.ts:124-130 | two updates of one shown component keep both patches |
| Document.RemoveId | frontend/src/stores/appStore.ts:135 | the filter keeps, in order, exactly the components without the id, each as often as it occurred, and drops every copy of the others |
| Document.RemoveIdIdempotent | frontend/src/stores/appStore.ts:135 | filtering twice equals filtering once |
| Document.RemoveComponent | frontend/src/stores/appStore.ts:132-138 | on each active screen every component without the id keeps its count and its relative order and every one with it is gone; other screens and the selection are unchanged |
| Document.RemoveComponentIdempotent | frontend/src/stores/appStore.ts:132-138 | removing twice equals removing once |
| Document.RemoveAbsentIsNoOp | frontend/src/stores/appStore.ts:132-138 | removing an id no active screen holds leaves the state unchanged |
| Document.RemoveSelectedLeavesDanglingSelection | frontend/src/stores/appStore.ts:132-138 | removing the selected component keeps a selection that no shown component carries |
| Document.ReorderComponents | frontend/src/stores/appStore.ts:139-145 | every active screen gets exactly the given list, unchecked; screen ids, names and other screens are unchanged |
| Document.ReorderThenRead | frontend/src/stores/appStore.ts:139-145 | after a reorder the shown list is exactly the given list |
| Document.EditsPreserveActiveExists | frontend/src/stores/appStore.ts:101-145 | no component operation, selection or preview toggle makes an existing active screen disappear |
| DataSource.SetSelectedRow | frontend/src/stores/dataStore.ts:28 | sets the selected row and nothing else |
| DataSource.SetSheetId | frontend/src/stores/dataStore.ts:29 | sets the id and nothing else; the dataset is not refreshed |
| DataSource.ExtractId | frontend/src/stores/dataStore.ts:46-50 | the id is found exactly when some `/d/` is followed by an id character; it is the maximal run of id characters after the leftmost such `/d/` |
| DataSource.ExtractIdFromEditLink | frontend/src/stores/dataStore.ts:46-50 | reading the id out of `https://docs.google.com/spreadsheets/d/<id>/…` gives back `<id>` |
| DataSource.StripWrapper | frontend/src/stores/dataStore.ts:83 | drops the first 47 and the last 2 characters, giving "" for shorter replies |
| DataSource.StripWrapperRoundTrip | frontend/src/stores/dataStore.ts:83 | wrapping a payload in a 47-character preamble and a 2-character trailer and stripping it gives the payload back |
| DataSource.CellValue | frontend/src/stores/dataStore.ts:93 | a null cell reads as "", otherwise the value if truthy, else the formatted value |
| DataSource.ZipRow | frontend/src/stores/dataStore.ts:90-96 | every cell's label is a key, every key comes from a cell, and each key holds the last cell written under it |
| DataSource.ZipRowKeys | frontend/src/stores/dataStore.ts:90-96 | a row with no more cells than labels has exactly the first labels as keys |
| DataSource.ZipRowValues | frontend/src/stores/dataStore.ts:90-96 | with distinct labels, each cell lands under its own label |
| DataSource.LongRowEscapesColumns | frontend/src/stores/dataStore.ts:93 | a row longer than the header gets the key `undefined`, which is not a column |
| DataSource.ZipRows | frontend/src/stores/dataStore.ts:90-96 | one row per data row, each zipped against the labels |
| DataSource.CannedDatasetsRectangular | frontend/src/stores/dataStore.ts:59-71 | the demo set has 4 columns and 3 rows, the fallback set 3 columns and 2 rows, and every row is keyed by exactly its columns |
| DataSource.StartFetch | frontend/src/stores/dataStore.ts:31-53 | an empty id does nothing; a Google link with `/d/e/` aborts with loading off; otherwise loading starts with the extracted id, or the id as given |
| DataSource.FetchData | frontend/src/stores/dataStore.ts:31-113 | a settled fetch ends not loading with the started id; it yields the demo set for `DEMO`, the parsed labels and zipped rows on success, and the fallback set on any failure |
| DataSource.FetchSettlesWithinColumns | frontend/src/stores/dataStore.ts:87-98 | after a started fetch, loading is off and, unless the reply had rows wider than its header, every row is keyed only by columns |
| DataSource.FailureLeavesFallback | frontend/src/stores/dataStore.ts:100-111 | a failed request leaves a non-empty dataset keyed exactly by its columns |
| Binding.Resolve | frontend/src/components/builder/SortableItem.tsx:187-210 | with a bind key, the selected row's truthy value wins, else `String()` of the first row's value; otherwise the static prop or the default; only a bound empty value can be falsy |
| Binding.GetTextReadsOnlyFirstRow | frontend/src/components/builder/SortableItem.tsx:192-194 | only the first data row matters, and a bound column it lacks shows `undefined`, for a column name that is not an `Object.prototype` member |
| Binding.SelectedRowTakesPriority | frontend/src/components/builder/SortableItem.tsx:189-194 | with rows Shoe and Shirt a bound text shows Shoe, and shows Shirt once the Shirt row is selected |
| Binding.FilterRows | frontend/src/components/builder/SortableItem.tsx:264-270 | the kept rows are an ordered subsequence of the data; a row passing the filter keeps its count and a failing one is dropped, and with the filter off all rows are kept |
| Binding.SliceEnd | frontend/src/components/builder/SortableItem.tsx:271 | a falsy limit means 100, and a non-zero number is used as given |
| Binding.ShownRows | frontend/src/components/builder/SortableItem.tsx:264-272 | the shown rows are a prefix of the filtered rows, hence an ordered subsequence of the data; their number is the limit (or 100) capped at the filtered count, or that count less `-limit` for a negative limit |
| Binding.FilterExample | frontend/src/components/builder/SortableItem.tsx:265-270 | filtering `Cat` by `foo` keeps the `Food` row and drops the `Tech` row, ignoring case |
| Binding.CardField | frontend/src/components/builder/SortableItem.tsx:288-291 | a bound card field reads the row's value for that column, even when it is missing; an unbound one shows the fallback |
| Binding.ProductCardAt | frontend/src/components/builder/SortableItem.tsx:280-295 | bound title and subtitle read the row; unbound ones are `Item ` with i+1 and `$` with (i+1)*10; the image is the card image; the caption is the `buttonText` prop if truthy, else `Buy` |
| Binding.CardImage | frontend/src/components/builder/SortableItem.tsx:281 | a bound image is `String()` of the row's truthy value or "" for a falsy one; an unbound image is the placeholder |
| Binding.NewsCardAt | frontend/src/components/builder/SortableItem.tsx:340-358 | bound date and title read the row; unbound ones are `12 Oct 2023` and `News Title ` with i+1; the image is the card image; a summary appears exactly when bound, with the row's value |
| Binding.ProductGridView | frontend/src/components/builder/SortableItem.tsx:257-307 | without data the grid shows the connect-data placeholder, else one card per shown row, numbered by its position among them |
| Binding.NewsGridView | frontend/src/components/builder/SortableItem.tsx:309-371 | without data the news grid shows the placeholder, else one card per shown row, numbered by its position among them |
| Binding.FallbackTitlesDistinct | frontend/src/components/builder/SortableItem.tsx:288 | with an unbound title, no two cards of a grid share a title |
| Binding.SelectedField | frontend/src/components/builder/SortableItem.tsx:526-527 | a bound detail field with a selected row reads that row's value, and is falsy when the binding or the row is missing |
| Binding.ProductDetail | frontend/src/components/builder/SortableItem.tsx:519-554 | the image falls back from `dataBind_src` to `dataBind_image` to `src` to the placeholder, and the description likewise, each binding counting only with a truthy selected value; bound title and price read the selected row; image and description are never empty |
| Binding.NewsDetail | frontend/src/components/builder/SortableItem.tsx:373-405 | the image falls back through `dataBind_src`, `dataBind_image`, `src` and the placeholder; bound date and title read the selected row, else the date default and the static or default title; content is the selected bound value if truthy, else `description` or the default |
| Binding.DetailIgnoresFirstRow | frontend/src/components/builder/SortableItem.tsx:539 | with data but nothing selected, a detail title shows its static text while a text bound to the same column shows the first row |
| Binding.Substitute | frontend/src/components/builder/SortableItem.tsx:153-155 | the per-key replacements leave a text without `{` unchanged (what they fill in is `Binding.SubstituteFillsHoles`) |
| Binding.FormatUrl | frontend/src/components/builder/SortableItem.tsx:149-157 | with no context row, or no `{` in the link, the link is returned unchanged (what it fills in is `Binding.FormatUrlFillsHoles`) |
| Binding.FillStep | frontend/src/components/builder/SortableItem.tsx:154 | one `replace` of `{k}` in a rendered template fills exactly the first hole named `k` |
| Binding.SubstituteFillsHoles | frontend/src/components/builder/SortableItem.tsx:153-155 | running the replacements for a list of keys over a rendered template fills exactly the holes named by those keys |
| Binding.RenderFilledHasNoBrace | frontend/src/components/builder/SortableItem.tsx:153-155 | once every hole is filled with brace-free values, the link holds no `{` |
| Binding.FormatUrlFillsHoles | frontend/src/components/builder/SortableItem.tsx:149-157 | a link made of brace-free text and distinct `{key}` holes comes out with each hole whose key the context row has replaced by that row's value, and with no `{` left when the row has every key |
| Binding.OnlyFirstOccurrenceFilled | frontend/src/components/builder/SortableItem.tsx:154 | `{k}{k}` becomes the value followed by `{k}`: only the first placeholder is filled |
| Binding.FillAlone | frontend/src/components/builder/SortableItem.tsx:154 | a placeholder on its own is replaced by the value |
| Binding.FilledValuesAreRescanned | frontend/src/components/builder/SortableItem.tsx:153-155 | a value `{b}` filled in for key `a` is itself filled in by key `b` |
| Binding.VideoId | frontend/src/components/builder/SortableItem.tsx:413-426 | the id is the whole segment after the first `v=` up to `&`, else after `youtu.be/` up to `?`, else after `embed/` up to `?` (the segment runs to the stop text, the marker again or the end), else the whole text if it has no `/` and is longer than 5 UTF-16 code units, else empty |
| Binding.SegmentUpTo | frontend/src/components/builder/SortableItem.tsx:418-422 | the segment directly follows the first occurrence of the marker, holds neither the stop text nor the marker, and ends at the stop text, the marker or the end of the text |
| Binding.SegmentUpToRoundTrip | frontend/src/components/builder/SortableItem.tsx:418-422 | a segment placed right after the marker, free of stop text and marker, is read back whole |
| Binding.Video | frontend/src/components/builder/SortableItem.tsx:410-441 | the player is embedded exactly when the extracted id is non-empty, at `https://www.youtube.com/embed/<id>` |
| Binding.ShortLinkEmbedsId | frontend/src/components/builder/SortableItem.tsx:419-420 | a `youtu.be/<id>` link embeds exactly `<id>` |
| Binding.AstralTextIsVideoId | frontend/src/components/builder/SortableItem.tsx:423 | a five-character text holding one character outside the Basic Multilingual Plane is six code units long, so it is taken whole as the id |
| Actions.Step | frontend/src/stores/appStore.ts:112-122 | selecting a row sets only it; navigating sets the active id, clears the selection and leaves the data alone; selecting sets only the selection; opening a link or an alert changes no state; no command touches the screens, the preview flag or the dataset |
| Actions.Run | frontend/src/components/builder/SortableItem.tsx:159-164 | applying click commands never changes the screens, the preview flag or the dataset |
| Actions.RunConcat | frontend/src/components/builder/SortableItem.tsx:159-164 | running two command lists in turn is running their concatenation |
| Actions.GridItemClick | frontend/src/components/builder/SortableItem.tsx:159-164 | a card click acts exactly in preview with a `navigate` action and a target, and then selects the row before navigating; in edit mode it does nothing |
| Actions.NewsItemClick | frontend/src/components/builder/SortableItem.tsx:326-334 | in preview a news card always selects its row and navigates only when `actionTarget` is set; in edit mode nothing happens |
| Actions.ComponentClick | frontend/src/components/builder/SortableItem.tsx:166-184 | in edit mode a click selects the component; in preview only buttons act, by navigating, opening the filled-in link or alerting, and a button with no usable action gives no command; nothing is selected |
| Actions.Toolbar | frontend/src/components/builder/SortableItem.tsx:495-515 | the back button shows unless `showBack` is exactly `false`, and the title is never empty |
| Actions.ToolbarBackClick | frontend/src/components/builder/SortableItem.tsx:496-508 | in preview back goes to `backTarget`, or to `screen-home` without one; in edit mode the click passes through and selects the toolbar |
| Actions.DetailBuyClick | frontend/src/components/builder/SortableItem.tsx:557-570 | in preview the buy button opens `https://wa.me/<number>?text=<encoded message>`, with the default number when none is set; in edit mode the detail is selected |
| Actions.GridClickShowsRowOnTarget | frontend/src/components/builder/SortableItem.tsx:159-164 | after a navigating card click the clicked row is selected, the target is active, and the product detail there shows that row's title |
| Actions.EditClickOnlySelects | frontend/src/components/builder/SortableItem.tsx:180-183 | in edit mode a click changes the selection and nothing else |
| Actions.NoSelectKeepsOrClearsSelection | frontend/src/components/builder/SortableItem.tsx:168-179 | commands without a select keep the selection or clear it, never set it |
| Actions.PreviewClickNeverSelects | frontend/src/components/builder/SortableItem.tsx:168-179 | a preview click never selects a component |
| Actions.BackWithoutTargetGoesHome | frontend/src/components/builder/SortableItem.tsx:501-505 | the back button without a target always leads to `screen-home` |
| Actions.BuyMessageNamesShownProduct | frontend/src/components/builder/SortableItem.tsx:562-566 | with a selected row and bound title and price, the message names the title and price the view shows |
| Actions.BuyMessageDefaultsDiffer | frontend/src/components/builder/SortableItem.tsx:562-563 | with nothing selected or set, the view shows `Product Name` and `Rp 0` but the message says `Item` and `0` |
| Actions.NewsClickSelectsRow | frontend/src/components/builder/SortableItem.tsx:328-333 | after a preview news-card click the row is selected and the screen is `actionTarget` if set, else unchanged |
| DragDrop.ArrayMove | frontend/src/app/page.tsx:103 | the moved element lands at the new index, the list is a permutation of the same length, and the elements between shift by one |
| DragDrop.ArrayMoveInverse | frontend/src/app/page.tsx:103 | moving back restores the list |
| DragDrop.FindComponentIndex | frontend/src/app/page.tsx:100-101 | the index of the first component with the id, or -1 exactly when none has it |
| DragDrop.HandleDragEnd | frontend/src/app/page.tsx:82-106 | no target is a no-op; a palette drop with a type on the canvas or a component appends a fresh empty component, else nothing; a canvas drag onto another found component moves it there, else nothing |
| DragDrop.PaletteDropAppends | frontend/src/app/page.tsx:86-96 | a palette drop shows the new empty component last |
| DragDrop.ReorderMovesDragged | frontend/src/app/page.tsx:99-104 | a reorder keeps the same components and puts the dragged one where the target was |
| Templates.TemplateLoadsHome | frontend/src/stores/templates.ts:3-6 | the template has two screens with distinct ids, and loading it activates and shows `screen-home` |
| Templates.TemplateIdsDistinct | frontend/src/stores/templates.ts:5-124 | component ids are unique across the whole template |
| Templates.TemplateResolves | frontend/src/stores/templates.ts:39-122 | every column the template binds is a demo column and every screen it navigates to is one of its own |
| Templates.BuyLinkUsesDemoColumns | frontend/src/stores/templates.ts:118 | the buy link's only placeholders are `{Title}` and `{Price}`, both demo columns |
| Templates.BuyLinkIsTemplate | frontend/src/stores/templates.ts:118 | the buy link is a well-formed template with holes `Title` and `Price`, which a row with both columns fills in |
| Templates.BuyButtonOpensFilledLink | frontend/src/stores/templates.ts:112-122 | in preview the buy button opens its link with the context row's title and price in place of the placeholders |
| Templates.BuyButtonShowsDefaultText | frontend/src/stores/templates.ts:112-122 | the buy button's caption is under `label`, which is never read, so it shows `Text Block` |
| Templates.DetailScreenShown | frontend/src/stores/templates.ts:65-68 | with the detail screen active the editor shows its five components |
| Templates.GridCardCommands | frontend/src/stores/templates.ts:47-48 | a preview card click selects the row and opens `screen-detail` |
| Templates.DetailTitleShowsSelected | frontend/src/stores/templates.ts:79-89 | the detail title shows the selected row's `Title` |
| Templates.CardClickOpensDetailOfRow | frontend/src/stores/templates.ts:39-89 | clicking a product card in preview opens the detail screen, whose title shows the clicked row's title |
| Templates.ToolbarBackStaysWithin | frontend/src/components/builder/SortableItem.tsx:500-505 | when a toolbar's targets resolve, its back button in preview navigates to a known screen, whether it goes to `backTarget` or falls back to `screen-home` |
| Templates.InitialAppWellFormed | frontend/src/stores/appStore.ts:47-99 | the initial document shows its home screen, has unique ids, and binds and navigates only to existing columns and screens, the toolbar's default back target `screen-home` included |

## Left out

- The network request, `setTimeout`, `alert`, `window.open` and `console`:
  the reply is an input (`DataSource.Reply`), and links and alerts are inert
  commands.
- `JSON.parse` and the shape checks on its result are a parameter, which
  yields the parsed header and rows or a failure. It is not modelled
  character by character.
- Overlapping `fetchData` calls and the 1-second delay of the demo branch.
  The model gives the state the fetch settles in; the loading state in
  between is `DataSource.StartFetch`.
- Id generation (`crypto.randomUUID` and its fallback) is a parameter.
  Freshness is a precondition only where a lemma needs it.
- Numbers are integers. Floating-point values and their printing are not
  modelled.
- The slider's auto-advance timer, the webview, the chart, the
  bottom-nav and spacer drawings, all style and class computation, and the
  text size and weight.
- The delete button drawn on the selected component. It only calls
  `removeComponent`, which is `Document.RemoveComponent`.
- The property panel, sidebar, canvas and data panel views, the API routes
  and the mobile build configuration. They only call the store operations
  modelled here.
- Binding.FormatUrl: the order in which `Object.keys` lists the context row
  is a parameter. The model requires it to list each key once.
- Binding.FormatUrlFillsHoles: states the fill-in only for links whose holes
  have distinct, brace-free keys and whose values hold no `{` or `$`. Other
  links are covered by example: `Binding.OnlyFirstOccurrenceFilled`,
  `Binding.FilledValuesAreRescanned` and `JsReplace.ReplaceByMatchIsIdentity`.
- Js.ReplaceFirst: its own contract gives the result in closed form only for
  a replacement without `$`. The `$` patterns are stated one by one in
  `JsReplace`, and `JsReplace.ExpandEscaped` gives their inverse.
- Js.ExpandReplacement: same as `Js.ReplaceFirst`. Its contract covers the
  `$`-free case, and the `JsReplace` lemmas state each `$` pattern.
- The slider's slide list and slide clicks. Only its `dataBind_src` and
  `dataBind_text` bindings and its slides' `targetScreenId` are modelled, and
  only for `Templates.TemplateResolves`, which checks them against the
  template's columns and screens.
- Binding.Video: requires `src` to be a string or falsy. A number or object
  `src` would make the source's `includes` call throw, and that is not
  modelled.
- Binding.SliceEnd: a string limit counts only when it is all decimal
  digits. Other strings that JavaScript converts to numbers (signs,
  whitespace, exponents) are read as 0. Arrays and objects are read as 0,
  although JavaScript converts a one-element array such as `[5]` to its
  element. No code writes `limit`, so only a hand-edited document reaches
  these cases.
- Js.Get: records have no prototype. A name inherited from
  `Object.prototype` (`constructor`, `toString`, `valueOf`,
  `hasOwnProperty` and the like) reads as `undefined`, where JavaScript
  reads the inherited member. A write under the key `__proto__` is stored
  as an ordinary key, where JavaScript stores nothing for a primitive
  value. So `DataSource.ZipRow` keeps a `__proto__` column.
- Js.Lower: only ASCII letters are lower-cased.
- Strings are sequences of Unicode characters, while JavaScript's `length`
  and string positions count UTF-16 code units, where a character outside the
  Basic Multilingual Plane takes two. The one length the code compares, the
  `length > 5` test of the video id, uses code units (`Js.Utf16Length`).
  Positions elsewhere count characters. `DataSource.StripWrapper` drops 47
  and 2 characters where the code drops code units. The two agree because the
  reply's wrapper is ASCII.
- Actions.DetailBuyClick: `encodeURIComponent` is a parameter.
