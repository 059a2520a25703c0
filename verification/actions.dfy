/**
  What clicks on rendered components do. A click produces a list of commands
  for the two stores (and for the browser); `Run` applies them in order. In
  edit mode a click selects the component; in preview mode buttons, list cards
  and the toolbar's back button navigate, open links or raise an alert.
 */
module Actions {
  import opened Js
  import D = Document
  import DS = DataSource
  import B = Binding

  datatype Command =
    | SelectRow(row: Record)       // the data store's setSelectedRow
    | Navigate(screenId: string)   // the document store's setActiveScreen
    | Select(componentId: string)  // the document store's selectComponent
    | OpenWindow(url: string)      // window.open(url, '_blank')
    | ShowAlert                    // alert(...)

  datatype World = World(app: D.AppState, data: DS.DataState)

  /** One command's effect on the stores. */
  function Step(w: World, c: Command): (r: World)
    ensures r.app.screens == w.app.screens && r.app.isPreviewMode == w.app.isPreviewMode
    ensures r.data.sheetId == w.data.sheetId && r.data.data == w.data.data && r.data.columns == w.data.columns
    ensures c.SelectRow? ==> r.data == w.data.(selectedRow := Some(c.row)) && r.app == w.app
    ensures c.Navigate? ==> r.app.activeScreenId == c.screenId && r.app.selectedId == None && r.data == w.data
    ensures c.Select? ==> r.app.selectedId == Some(c.componentId) && r.app.activeScreenId == w.app.activeScreenId
    ensures c.Select? ==> r.data == w.data
    ensures c.OpenWindow? || c.ShowAlert? ==> r == w
  {
    match c
    case SelectRow(row) => w.(data := DS.SetSelectedRow(w.data, Some(row)))
    case Navigate(id) => w.(app := D.SetActiveScreen(w.app, id))
    case Select(id) => w.(app := D.SelectComponent(w.app, Some(id)))
    case OpenWindow(_) => w
    case ShowAlert => w
  }

  /** Applies the commands in order; the browser-side ones change no state. */
  function Run(w: World, cmds: seq<Command>): (r: World)
    ensures r.app.screens == w.app.screens && r.app.isPreviewMode == w.app.isPreviewMode
    ensures r.data.sheetId == w.data.sheetId && r.data.data == w.data.data && r.data.columns == w.data.columns
    decreases |cmds|
  {
    if |cmds| == 0 then w
    else
      Run(Step(w, cmds[0]), cmds[1..])
  }

  /** Running two command lists one after the other is running their concatenation. */
  lemma {:induction false} RunConcat(w: World, a: seq<Command>, b: seq<Command>)
    ensures Run(w, a + b) == Run(Run(w, a), b)
    decreases |a|
  {
    if |a| == 0 {
      assert a + b == b;
    } else {
      assert (a + b)[0] == a[0];
      assert (a + b)[1..] == a[1..] + b;
      assert Run(w, a + b) == Run(Step(w, a[0]), a[1..] + b);
      RunConcat(Step(w, a[0]), a[1..], b);
    }
  }

  predicate IsSelect(c: Command) {
    c.Select?
  }

  // ---------------------------------------------------------------------------
  // Clicks

  /** A product-grid card: in preview, with a `navigate` item action and a
      target, select the card's row and then open the target screen. The card
      stops the click, so in edit mode nothing happens at all. */
  function GridItemClick(preview: bool, props: Record, row: Record): (cmds: seq<Command>)
    ensures !preview ==> cmds == []
    ensures cmds != [] <==>
              preview && Get(props, "itemActionType") == Str("navigate") && Truthy(Get(props, "itemTargetScreenId"))
    ensures cmds != [] ==> cmds == [SelectRow(row), Navigate(B.Key(Get(props, "itemTargetScreenId")))]
  {
    var target := Get(props, "itemTargetScreenId");
    if preview && Get(props, "itemActionType") == Str("navigate") && Truthy(target) then
      [SelectRow(row), Navigate(B.Key(target))]
    else []
  }

  /** A news-grid card: in preview always selects the row, and navigates when
      `actionTarget` is set; in edit mode the stopped click does nothing. */
  function NewsItemClick(preview: bool, props: Record, row: Record): (cmds: seq<Command>)
    ensures !preview <==> cmds == []
    ensures preview ==> cmds[0] == SelectRow(row)
    ensures preview ==> |cmds| == (if Truthy(Get(props, "actionTarget")) then 2 else 1)
    ensures preview && Truthy(Get(props, "actionTarget")) ==> cmds[1] == Navigate(B.Key(Get(props, "actionTarget")))
  {
    var target := Get(props, "actionTarget");
    if !preview then []
    else [SelectRow(row)] + (if Truthy(target) then [Navigate(B.Key(target))] else [])
  }

  /** A click on the component itself: in edit mode it selects the component;
      in preview only buttons react, by their `actionType`. A link target has
      its `{column}` placeholders filled before it is opened; `keys` is the
      order `Object.keys` lists the context row in. */
  function ComponentClick(preview: bool, c: D.Component, selectedRow: Option<Record>, data: seq<Record>,
                          keys: seq<string>): (cmds: seq<Command>)
    requires B.Enumerates(keys, B.ContextRow(selectedRow, data))
    ensures !preview ==> cmds == [Select(c.id)]
    ensures preview ==> |cmds| <= 1 && forall i :: 0 <= i < |cmds| ==> !IsSelect(cmds[i])
    ensures preview && c.kind != D.Button ==> cmds == []
    ensures preview && c.kind == D.Button && Get(c.props, "actionType") == Str("navigate")
              && Truthy(Get(c.props, "targetScreenId")) ==>
              cmds == [Navigate(B.Key(Get(c.props, "targetScreenId")))]
    ensures preview && c.kind == D.Button && Get(c.props, "actionType") == Str("open_url")
              && Truthy(Get(c.props, "urlTarget")) ==>
              cmds == [OpenWindow(B.FormatUrl(B.Key(Get(c.props, "urlTarget")), selectedRow, data, keys))]
    ensures preview && c.kind == D.Button && Get(c.props, "actionType") == Str("alert") ==> cmds == [ShowAlert]
    ensures preview && c.kind == D.Button
              && !(Get(c.props, "actionType") == Str("navigate") && Truthy(Get(c.props, "targetScreenId")))
              && !(Get(c.props, "actionType") == Str("open_url") && Truthy(Get(c.props, "urlTarget")))
              && Get(c.props, "actionType") != Str("alert") ==>
              cmds == []
  {
    if !preview then [Select(c.id)]
    else if c.kind != D.Button then []
    else
      var action := Get(c.props, "actionType");
      if action == Str("navigate") && Truthy(Get(c.props, "targetScreenId")) then
        [Navigate(B.Key(Get(c.props, "targetScreenId")))]
      else if action == Str("open_url") && Truthy(Get(c.props, "urlTarget")) then
        [OpenWindow(B.FormatUrl(B.Key(Get(c.props, "urlTarget")), selectedRow, data, keys))]
      else if action == Str("alert") then [ShowAlert]
      else []
  }

  /** The toolbar: the back button is there unless `showBack` is exactly
      `false`; the title falls back to `Page Title`. */
  datatype ToolbarView = ToolbarView(hasBack: bool, title: Value)

  function Toolbar(props: Record): (v: ToolbarView)
    ensures v.hasBack <==> Get(props, "showBack") != Bool(false)
    ensures !Get(props, "showBack").Bool? ==> v.hasBack
    ensures Truthy(v.title)
  {
    ToolbarView(Get(props, "showBack") != Bool(false), Or(Get(props, "title"), Str("Page Title")))
  }

  /** A click on the back button: in preview it goes to `backTarget`, or to the
      home screen when none is set. In edit mode the button lets clicks through
      to the toolbar, which is then selected. */
  function ToolbarBackClick(preview: bool, c: D.Component): (cmds: seq<Command>)
    requires Toolbar(c.props).hasBack
    ensures !preview ==> cmds == [Select(c.id)]
    ensures preview && Truthy(Get(c.props, "backTarget")) ==> cmds == [Navigate(B.Key(Get(c.props, "backTarget")))]
    ensures preview && !Truthy(Get(c.props, "backTarget")) ==> cmds == [Navigate(D.HomeScreenId)]
  {
    if !preview then [Select(c.id)]
    else
      var target := Get(c.props, "backTarget");
      [Navigate(if Truthy(target) then B.Key(target) else D.HomeScreenId)]
  }

  /** The number the product detail's buy button writes to when the component
      names none. */
  const DefaultPhone: string := "6281234567890"

  /** The message of the product detail's buy button: title and price come
      from the selected row when bound, else from the static props, else
      `Item` and `0`. */
  function BuyMessage(props: Record, selectedRow: Option<Record>): string {
    "Halo, saya mau beli "
      + ToString(B.SelectedOr(Get(props, "dataBind_title"), selectedRow, Or(Get(props, "title"), Str("Item"))))
      + " seharga "
      + ToString(B.SelectedOr(Get(props, "dataBind_price"), selectedRow, Or(Get(props, "price"), Str("0"))))
  }

  /** The product detail's buy button: in preview it opens a WhatsApp link
      carrying the encoded message (`encode` stands for `encodeURIComponent`).
      In edit mode the button lets clicks through, and the detail component is
      selected. */
  function DetailBuyClick(preview: bool, c: D.Component, selectedRow: Option<Record>,
                          encode: string -> string): (cmds: seq<Command>)
    ensures !preview ==> cmds == [Select(c.id)]
    ensures preview ==> |cmds| == 1 && cmds[0].OpenWindow?
    ensures preview && !Truthy(Get(c.props, "whatsappNumber")) ==>
              cmds[0].url == "https://wa.me/" + DefaultPhone + "?text=" + encode(BuyMessage(c.props, selectedRow))
    ensures preview && Get(c.props, "whatsappNumber").Str? && Truthy(Get(c.props, "whatsappNumber")) ==>
              cmds[0].url == "https://wa.me/" + Get(c.props, "whatsappNumber").s + "?text="
                             + encode(BuyMessage(c.props, selectedRow))
  {
    if !preview then [Select(c.id)]
    else
      var phone := B.Key(Or(Get(c.props, "whatsappNumber"), Str(DefaultPhone)));
      [OpenWindow("https://wa.me/" + phone + "?text=" + encode(BuyMessage(c.props, selectedRow)))]
  }

  // ---------------------------------------------------------------------------
  // Properties of the interaction model

  /** Clicking a navigating card selects its row and opens the target screen;
      the product detail shown there reads that row, not the first data row. */
  lemma GridClickShowsRowOnTarget(w: World, props: Record, row: Record, detailProps: Record)
    requires w.app.isPreviewMode
    requires Get(props, "itemActionType") == Str("navigate") && Truthy(Get(props, "itemTargetScreenId"))
    requires Truthy(Get(detailProps, "dataBind_title"))
    ensures var r := Run(w, GridItemClick(true, props, row));
            && r.data.selectedRow == Some(row)
            && r.app.activeScreenId == B.Key(Get(props, "itemTargetScreenId"))
            && r.app.selectedId == None
            && B.ProductDetail(detailProps, r.data.selectedRow).title == Get(row, B.Key(Get(detailProps, "dataBind_title")))
  {
    var cmds := GridItemClick(true, props, row);
    var w1 := Step(w, cmds[0]);
    assert Run(w, cmds) == Run(w1, cmds[1..]);
    assert cmds[1..][1..] == [];
    assert Run(w1, cmds[1..]) == Step(w1, cmds[1]);
  }

  /** In edit mode a click changes the selection and nothing else. */
  lemma EditClickOnlySelects(w: World, c: D.Component, keys: seq<string>)
    requires B.Enumerates(keys, B.ContextRow(w.data.selectedRow, w.data.data))
    ensures var r := Run(w, ComponentClick(false, c, w.data.selectedRow, w.data.data, keys));
            r == World(w.app.(selectedId := Some(c.id)), w.data)
  {
    var cmds := ComponentClick(false, c, w.data.selectedRow, w.data.data, keys);
    assert Run(w, cmds) == Run(Step(w, cmds[0]), []);
  }

  /** Commands that select nothing never change the component selection to a
      component: it stays as it was or is cleared by navigation. */
  lemma {:induction false} NoSelectKeepsOrClearsSelection(w: World, cmds: seq<Command>)
    requires forall i :: 0 <= i < |cmds| ==> !IsSelect(cmds[i])
    ensures Run(w, cmds).app.selectedId == w.app.selectedId || Run(w, cmds).app.selectedId == None
    decreases |cmds|
  {
    if |cmds| > 0 {
      assert forall i :: 0 <= i < |cmds[1..]| ==> !IsSelect(cmds[1..][i]) by {
        forall i | 0 <= i < |cmds[1..]| ensures !IsSelect(cmds[1..][i]) {
          assert cmds[1..][i] == cmds[i + 1];
        }
      }
      NoSelectKeepsOrClearsSelection(Step(w, cmds[0]), cmds[1..]);
    }
  }

  /** A preview click on a component never selects a component. */
  lemma PreviewClickNeverSelects(w: World, c: D.Component, keys: seq<string>)
    requires B.Enumerates(keys, B.ContextRow(w.data.selectedRow, w.data.data))
    ensures var r := Run(w, ComponentClick(true, c, w.data.selectedRow, w.data.data, keys));
            r.app.selectedId == w.app.selectedId || r.app.selectedId == None
  {
    NoSelectKeepsOrClearsSelection(w, ComponentClick(true, c, w.data.selectedRow, w.data.data, keys));
  }

  /** The back button without a target always leads to the home screen. */
  lemma BackWithoutTargetGoesHome(w: World, c: D.Component)
    requires w.app.isPreviewMode && Toolbar(c.props).hasBack && !Truthy(Get(c.props, "backTarget"))
    ensures Run(w, ToolbarBackClick(true, c)).app.activeScreenId == D.HomeScreenId
  {
    var cmds := ToolbarBackClick(true, c);
    assert Run(w, cmds) == Run(Step(w, cmds[0]), []);
  }

  /** With a selected row and bound title and price, the buy message names the
      title and price the detail view shows. */
  lemma BuyMessageNamesShownProduct(props: Record, row: Record)
    requires Truthy(Get(props, "dataBind_title")) && Truthy(Get(props, "dataBind_price"))
    ensures var v := B.ProductDetail(props, Some(row));
            BuyMessage(props, Some(row)) == "Halo, saya mau beli " + ToString(v.title) + " seharga " + ToString(v.price)
  {
  }

  /** Without a selected row and static props, the view shows `Product Name`
      but the message says `Item`, and the price `Rp 0` becomes `0`. */
  lemma BuyMessageDefaultsDiffer()
    ensures B.ProductDetail(map[], None).title == Str("Product Name")
    ensures B.ProductDetail(map[], None).price == Str("Rp 0")
    ensures BuyMessage(map[], None) == "Halo, saya mau beli Item seharga 0"
  {
  }

  /** A preview click on a news card selects its row, then opens `actionTarget`
      when it is set and otherwise stays on the current screen. */
  lemma NewsClickSelectsRow(w: World, props: Record, row: Record)
    ensures var r := Run(w, NewsItemClick(true, props, row));
            && r.data.selectedRow == Some(row)
            && r.app.activeScreenId ==
                 (if Truthy(Get(props, "actionTarget")) then B.Key(Get(props, "actionTarget")) else w.app.activeScreenId)
  {
    var cmds := NewsItemClick(true, props, row);
    var w1 := Step(w, cmds[0]);
    assert Run(w, cmds) == Run(w1, cmds[1..]);
    if |cmds| == 2 {
      assert cmds[1..][1..] == [];
      assert Run(w1, cmds[1..]) == Step(w1, cmds[1]);
    } else {
      assert cmds[1..] == [];
    }
  }
}
