/**
  The bundled e-commerce template: a home screen with a product grid whose
  cards open a detail screen bound to the selected row, and facts tying the
  template and the initial document to the screens, columns and interactions
  they rely on.
 */
module Templates {
  import opened Js
  import opened Document
  import DS = DataSource
  import B = Binding
  import A = Actions

  const DetailScreenId: string := "screen-detail"

  // The home screen: a header bar, a title, a banner, a search hint, the
  // product grid, a spacer and the bottom navigation.

  const Header: Component := Component("comp-header", Container, map[
    "style" := Obj(map[
      "backgroundColor" := Str("#2563eb"), "padding" := Str("16px"), "color" := Str("white"),
      "display" := Str("flex"), "justifyContent" := Str("space-between"), "alignItems" := Str("center")])],
    Some([]))

  const Title: Component := Component("comp-title", Text, map[
    "text" := Str("My Online Shop"), "bold" := Bool(true), "size" := Num(18), "align" := Str("center")], None)

  const Banner: Component := Component("comp-banner", Slider, map[
    "width" := Str("100%"), "src" := Str("https://placehold.co/600x300/2563eb/white?text=Promo+50%25")], None)

  const Search: Component := Component("comp-search", Text, map[
    "text" := Str("\U{1F50D} Search Product..."), "size" := Num(14), "color" := Str("#9ca3af"),
    "padding" := Str("10px"), "background" := Str("#f3f4f6"), "borderRadius" := Str("8px"),
    "margin" := Str("10px 0")], None)

  /** Cards show the `Image`, `Title` and `Price` columns and open the detail screen. */
  const Grid: Component := Component("comp-grid", ProductGrid, map[
    "gridColumns" := Num(2), "bind_image" := Str("Image"), "bind_title" := Str("Title"),
    "bind_subtitle" := Str("Price"), "itemActionType" := Str("navigate"),
    "itemTargetScreenId" := Str(DetailScreenId)], None)

  const Spacer: Component := Component("comp-spacer", Container, map["height" := Str("60px")], None)

  const Nav: Component := Component("comp-nav", BottomNav, map[], None)

  // The detail screen: image, title, price and description bound to the
  // selected row, and a button that opens a WhatsApp link.

  const DetailImage: Component := Component("comp-detail-img", Image, map[
    "width" := Str("100%"), "height" := Str("300px"), "dataBind_src" := Str("Image"),
    "src" := Str("https://placehold.co/600x400")], None)

  const DetailTitle: Component := Component("comp-detail-title", Text, map[
    "text" := Str("Product Title"), "dataBind_text" := Str("Title"), "bold" := Bool(true),
    "size" := Num(24), "margin" := Str("16px 0 8px 0")], None)

  const DetailPrice: Component := Component("comp-detail-price", Text, map[
    "text" := Str("Rp 0"), "dataBind_text" := Str("Price"), "size" := Num(20),
    "color" := Str("#2563eb"), "bold" := Bool(true)], None)

  const DetailDescription: Component := Component("comp-detail-desc", Text, map[
    "text" := Str("Description"), "dataBind_text" := Str("Description"), "size" := Num(14),
    "color" := Str("#4b5563"), "margin" := Str("16px 0")], None)

  /** The text of the buy link around its two placeholders. */
  const BuyLinkHead: string := "https://wa.me/" + "628123456789" + "?text=Halo Kak, " + "saya mau beli "
  const BuyLinkMiddle: string := " harga "

  /** `https://wa.me/628123456789?text=Halo Kak, saya mau beli {Title} harga {Price}` */
  const BuyLink: string := BuyLinkHead + "{Title}" + BuyLinkMiddle + "{Price}"

  const BuyButton: Component := Component("comp-detail-buy", Button, map[
    "label" := Str("\U{1F6D2} Beli via WhatsApp"), "actionType" := Str("open_url"),
    "urlTarget" := Str(BuyLink), "backgroundColor" := Str("#22c55e"), "color" := Str("white")], None)

  const HomeComponents: seq<Component> := [Header, Title, Banner, Search, Grid, Spacer, Nav]

  const DetailComponents: seq<Component> := [DetailImage, DetailTitle, DetailPrice, DetailDescription, BuyButton]

  const EcommerceTemplate: seq<Screen> := [
    Screen(HomeScreenId, "Home", HomeComponents),
    Screen(DetailScreenId, "Detail", DetailComponents)
  ]

  // ---------------------------------------------------------------------------
  // Well-formedness of a document

  /** No two screens share an id. */
  predicate DistinctScreenIds(screens: seq<Screen>) {
    forall i, j :: 0 <= i < j < |screens| ==> screens[i].id != screens[j].id
  }

  /** Within every screen no two components share an id. */
  predicate DistinctComponentIds(screens: seq<Screen>) {
    forall s :: 0 <= s < |screens| ==> ComponentIdsDistinct(screens[s].components)
  }

  predicate ComponentIdsDistinct(cs: seq<Component>) {
    forall i, j :: 0 <= i < j < |cs| ==> cs[i].id != cs[j].id
  }

  /** The props through which the renderer of a component reads a data
      column, by component type. */
  function BindProps(kind: ComponentType): seq<string> {
    match kind
    case Text => ["dataBind_text"]
    case Button => ["dataBind_text"]
    case Image => ["dataBind_src"]
    case Slider => ["dataBind_src", "dataBind_text"]
    case ProductGrid => ["bind_image", "bind_title", "bind_subtitle", "filterColumn"]
    case NewsGrid => ["bind_image", "bind_date", "bind_title", "bind_summary", "filterColumn"]
    case ProductDetail => ["dataBind_src", "dataBind_image", "dataBind_title", "dataBind_price",
                           "dataBind_desc", "dataBind_description"]
    case NewsDetail => ["dataBind_src", "dataBind_image", "dataBind_date", "dataBind_title", "dataBind_content"]
    case _ => []
  }

  /** Every column a component reads names one of `columns`. */
  predicate ReadsWithin(c: Component, columns: seq<string>) {
    forall i :: 0 <= i < |BindProps(c.kind)| ==>
      var v := Get(c.props, BindProps(c.kind)[i]);
      !Truthy(v) || (v.Str? && v.s in columns)
  }

  /** The props through which a component names a screen to navigate to, by
      component type. */
  function TargetProps(kind: ComponentType): seq<string> {
    match kind
    case ProductGrid => ["itemTargetScreenId"]
    case Button => ["targetScreenId"]
    case NewsGrid => ["actionTarget"]
    case Toolbar => ["backTarget"]
    case _ => []
  }

  /** Every screen a component navigates to is one of `screenIds`: the
      screens its props name, for a slider the screens its slides name, and
      for a toolbar whose back button has no target the home screen. */
  predicate TargetsWithin(c: Component, screenIds: seq<string>) {
    && (forall i :: 0 <= i < |TargetProps(c.kind)| ==>
          var v := Get(c.props, TargetProps(c.kind)[i]);
          !Truthy(v) || B.Key(v) in screenIds)
    && (c.kind == Slider ==> SlidesTargetWithin(Get(c.props, "slides"), screenIds))
    && (c.kind == Toolbar && A.Toolbar(c.props).hasBack && !Truthy(Get(c.props, "backTarget")) ==>
          HomeScreenId in screenIds)
  }

  /** A toolbar whose targets resolve sends its back button, in preview, to
      one of the known screens, with or without a `backTarget`. */
  lemma ToolbarBackStaysWithin(c: Component, screenIds: seq<string>)
    requires c.kind == Toolbar && A.Toolbar(c.props).hasBack && TargetsWithin(c, screenIds)
    ensures |A.ToolbarBackClick(true, c)| == 1 && A.ToolbarBackClick(true, c)[0].Navigate?
    ensures A.ToolbarBackClick(true, c)[0].screenId in screenIds
  {
    assert TargetProps(c.kind)[0] == "backTarget";
  }

  /** The screen a manual slide opens in preview: `s.targetScreenId`. */
  function SlideTarget(slide: Value): Value {
    if slide.Obj? then Get(slide.fields, "targetScreenId") else Undefined
  }

  predicate SlidesTargetWithin(slides: Value, screenIds: seq<string>) {
    slides.Arr? ==>
      forall k :: 0 <= k < |slides.items| ==>
        !Truthy(SlideTarget(slides.items[k])) || B.Key(SlideTarget(slides.items[k])) in screenIds
  }

  /** A component's references, to columns and to screens, all resolve. */
  predicate Resolves(c: Component, screenIds: seq<string>, columns: seq<string>) {
    ReadsWithin(c, columns) && TargetsWithin(c, screenIds)
  }

  function ScreenIds(screens: seq<Screen>): (ids: seq<string>)
    ensures |ids| == |screens| && forall i :: 0 <= i < |screens| ==> ids[i] == screens[i].id
  {
    seq(|screens|, i requires 0 <= i < |screens| => screens[i].id)
  }

  /** Every reference a document's components make resolves against its own
      screens and the given columns. */
  predicate AllResolve(screens: seq<Screen>, columns: seq<string>) {
    forall s, j :: 0 <= s < |screens| && 0 <= j < |screens[s].components| ==>
      Resolves(screens[s].components[j], ScreenIds(screens), columns)
  }

  /** If every component of each screen resolves, the document does. */
  lemma {:induction false} AllResolveByScreen(screens: seq<Screen>, columns: seq<string>)
    requires forall s :: 0 <= s < |screens| ==> ScreenResolves(screens[s].components, ScreenIds(screens), columns)
    ensures AllResolve(screens, columns)
  {
    forall s, j | 0 <= s < |screens| && 0 <= j < |screens[s].components|
      ensures Resolves(screens[s].components[j], ScreenIds(screens), columns)
    {
      assert ScreenResolves(screens[s].components, ScreenIds(screens), columns);
    }
  }

  predicate ScreenResolves(cs: seq<Component>, screenIds: seq<string>, columns: seq<string>) {
    forall j :: 0 <= j < |cs| ==> Resolves(cs[j], screenIds, columns)
  }

  // ---------------------------------------------------------------------------
  // The template

  const TemplateScreenIds: seq<string> := [HomeScreenId, DetailScreenId]

  /** The template has two screens with distinct ids, the home screen first,
      and loading it shows the home screen's components. */
  lemma TemplateLoadsHome(st: AppState)
    ensures |EcommerceTemplate| == 2 && DistinctScreenIds(EcommerceTemplate)
    ensures ScreenIds(EcommerceTemplate) == TemplateScreenIds
    ensures LoadTemplate(st, EcommerceTemplate).activeScreenId == HomeScreenId
    ensures ActiveComponents(LoadTemplate(st, EcommerceTemplate)) == HomeComponents
  {
    LoadTemplateShowsFirstScreen(st, EcommerceTemplate);
  }

  /** Component ids are unique across the whole template. */
  lemma TemplateIdsDistinct()
    ensures ComponentIdsDistinct(HomeComponents + DetailComponents)
    ensures DistinctComponentIds(EcommerceTemplate)
  {
  }

  lemma HeaderResolves()
    ensures Resolves(Header, TemplateScreenIds, DS.DemoColumns)
  {
  }

  lemma TitleResolves()
    ensures Resolves(Title, TemplateScreenIds, DS.DemoColumns)
  {
  }

  lemma BannerResolves()
    ensures Resolves(Banner, TemplateScreenIds, DS.DemoColumns)
  {
  }

  lemma SearchResolves()
    ensures Resolves(Search, TemplateScreenIds, DS.DemoColumns)
  {
  }

  lemma GridResolves()
    ensures Resolves(Grid, TemplateScreenIds, DS.DemoColumns)
  {
  }

  lemma SpacerResolves()
    ensures Resolves(Spacer, TemplateScreenIds, DS.DemoColumns)
  {
  }

  lemma NavResolves()
    ensures Resolves(Nav, TemplateScreenIds, DS.DemoColumns)
  {
  }

  lemma DetailImageResolves()
    ensures Resolves(DetailImage, TemplateScreenIds, DS.DemoColumns)
  {
  }

  lemma DetailTitleResolves()
    ensures Resolves(DetailTitle, TemplateScreenIds, DS.DemoColumns)
  {
  }

  lemma DetailPriceResolves()
    ensures Resolves(DetailPrice, TemplateScreenIds, DS.DemoColumns)
  {
  }

  lemma DetailDescriptionResolves()
    ensures Resolves(DetailDescription, TemplateScreenIds, DS.DemoColumns)
  {
  }

  lemma BuyButtonResolves()
    ensures Resolves(BuyButton, TemplateScreenIds, DS.DemoColumns)
  {
  }

  lemma HomeResolves()
    ensures ScreenResolves(HomeComponents, TemplateScreenIds, DS.DemoColumns)
  {
    HeaderResolves();
    TitleResolves();
    BannerResolves();
    SearchResolves();
    GridResolves();
    SpacerResolves();
    NavResolves();
  }

  lemma DetailResolves()
    ensures ScreenResolves(DetailComponents, TemplateScreenIds, DS.DemoColumns)
  {
    DetailImageResolves();
    DetailTitleResolves();
    DetailPriceResolves();
    DetailDescriptionResolves();
    BuyButtonResolves();
  }

  /** Every column the template reads is a demo column and every screen it
      navigates to is one of its own. */
  lemma TemplateResolves()
    ensures AllResolve(EcommerceTemplate, DS.DemoColumns)
  {
    HomeResolves();
    DetailResolves();
    TemplateLoadsHome(InitialApp);
    AllResolveByScreen(EcommerceTemplate, DS.DemoColumns);
  }

  /** The buy link's only placeholders are `{Title}` and `{Price}`, both demo
      columns. */
  lemma BuyLinkUsesDemoColumns()
    ensures BuyLink == BuyLinkHead + B.Placeholder("Title") + BuyLinkMiddle + B.Placeholder("Price")
    ensures '{' !in BuyLinkHead && '{' !in BuyLinkMiddle
    ensures "Title" in DS.DemoColumns && "Price" in DS.DemoColumns
  {
    assert B.Placeholder("Title") == "{Title}";
    assert B.Placeholder("Price") == "{Price}";
    assert DS.DemoColumns[0] == "Title" && DS.DemoColumns[2] == "Price";
    assert '{' !in "https://wa.me/" && '{' !in "628123456789";
    assert '{' !in "?text=Halo Kak, " && '{' !in "saya mau beli ";
  }

  /** The buy link as literal text and placeholders. */
  const BuyLinkPieces: seq<B.Piece> := [B.Lit(BuyLinkHead), B.Hole("Title"), B.Lit(BuyLinkMiddle), B.Hole("Price")]

  /** Rendering a two-placeholder template, with the literal texts left abstract. */
  lemma RenderTwoHoles(a: string, x: string, b: string, y: string, filled: set<string>, row: Record)
    ensures B.Render([B.Lit(a), B.Hole(x), B.Lit(b), B.Hole(y)], filled, row) ==
              a + B.RenderPiece(B.Hole(x), filled, row) + b + B.RenderPiece(B.Hole(y), filled, row)
  {
    var p := [B.Lit(a), B.Hole(x), B.Lit(b), B.Hole(y)];
    assert p[1..][1..][1..][1..] == [];
    assert p[1..][1..][1..] == [B.Hole(y)];
    assert p[1..][1..] == [B.Lit(b), B.Hole(y)];
    assert p[1..] == [B.Hole(x), B.Lit(b), B.Hole(y)];
    var hx, hy := B.RenderPiece(B.Hole(x), filled, row), B.RenderPiece(B.Hole(y), filled, row);
    assert B.Render(p[1..][1..][1..], filled, row) == hy + "";
    assert B.Render(p[1..][1..], filled, row) == b + hy;
    assert B.Render(p[1..], filled, row) == hx + (b + hy);
  }

  lemma BuyLinkIsTemplate(row: Record)
    ensures B.WellFormedTemplate(BuyLinkPieces)
    ensures B.Render(BuyLinkPieces, {}, row) == BuyLink
    ensures "Title" in row && "Price" in row ==>
              B.Render(BuyLinkPieces, row.Keys, row) ==
                BuyLinkHead + ToString(row["Title"]) + BuyLinkMiddle + ToString(row["Price"])
  {
    BuyLinkUsesDemoColumns();
    RenderTwoHoles(BuyLinkHead, "Title", BuyLinkMiddle, "Price", {}, row);
    RenderTwoHoles(BuyLinkHead, "Title", BuyLinkMiddle, "Price", row.Keys, row);
    assert B.BraceFree("Title") && B.BraceFree("Price");
  }

  /** In preview the buy button opens the link with the selected row's title
      and price in place of the placeholders, as long as the row's keys hold
      no brace and its values no `{` or `$`. */
  lemma BuyButtonOpensFilledLink(row: Record, data: seq<Record>, keys: seq<string>)
    requires B.Enumerates(keys, row) && "Title" in row && "Price" in row
    requires forall k :: k in row ==> B.BraceFree(k) && B.PlainValue(ToString(Get(row, k)))
    ensures A.ComponentClick(true, BuyButton, Some(row), data, keys) ==
              [A.OpenWindow(BuyLinkHead + ToString(row["Title"]) + BuyLinkMiddle + ToString(row["Price"]))]
  {
    BuyButtonOpensLink(Some(row), data, keys);
    BuyLinkIsTemplate(row);
    B.FormatUrlFillsHoles(BuyLinkPieces, Some(row), data, keys);
  }

  /** In preview the buy button opens its link after filling it from the
      context row. */
  lemma BuyButtonOpensLink(selectedRow: Option<Record>, data: seq<Record>, keys: seq<string>)
    requires B.Enumerates(keys, B.ContextRow(selectedRow, data))
    ensures A.ComponentClick(true, BuyButton, selectedRow, data, keys) ==
              [A.OpenWindow(B.FormatUrl(BuyLink, selectedRow, data, keys))]
  {
    assert Get(BuyButton.props, "actionType") == Str("open_url");
    assert B.Key(Get(BuyButton.props, "urlTarget")) == BuyLink;
  }

  /** The buy button keeps its caption under `label`, which the renderer
      never reads: it shows the default text instead. */
  lemma BuyButtonShowsDefaultText(data: seq<Record>, selectedRow: Option<Record>)
    ensures B.GetText(BuyButton.props, data, selectedRow) == Str(B.TextDefault)
  {
  }

  /** With the detail screen active, the editor shows its components. */
  lemma DetailScreenShown(app: AppState)
    requires app.screens == EcommerceTemplate && app.activeScreenId == DetailScreenId
    ensures ActiveComponents(app) == DetailComponents
  {
    assert FirstScreenAt(app.screens, DetailScreenId, 1);
  }

  /** In preview a product card selects its row and opens the detail screen. */
  lemma GridCardCommands(row: Record)
    ensures A.GridItemClick(true, Grid.props, row) == [A.SelectRow(row), A.Navigate(DetailScreenId)]
  {
    assert Get(Grid.props, "itemActionType") == Str("navigate");
    assert B.Key(Get(Grid.props, "itemTargetScreenId")) == DetailScreenId;
  }

  /** The detail title shows the selected row's `Title` when it has one. */
  lemma DetailTitleShowsSelected(data: seq<Record>, row: Record)
    requires Truthy(Get(row, "Title"))
    ensures B.GetText(DetailTitle.props, data, Some(row)) == Str(ToString(row["Title"]))
  {
    assert Get(DetailTitle.props, "dataBind_text") == Str("Title");
  }

  /** The template's intended flow: in preview, clicking a product card opens
      the detail screen, whose title text shows the clicked row's title. */
  lemma CardClickOpensDetailOfRow(w: A.World, row: Record)
    requires w.app.screens == EcommerceTemplate && w.app.isPreviewMode
    requires Truthy(Get(row, "Title"))
    ensures var r := A.Run(w, A.GridItemClick(true, Grid.props, row));
            && r.app.activeScreenId == DetailScreenId
            && r.data.selectedRow == Some(row)
            && ActiveComponents(r.app) == DetailComponents
            && B.GetText(DetailTitle.props, r.data.data, r.data.selectedRow) == Str(ToString(row["Title"]))
  {
    var cmds := A.GridItemClick(true, Grid.props, row);
    GridCardCommands(row);
    var w1 := A.Step(w, cmds[0]);
    var w2 := A.Step(w1, cmds[1]);
    assert A.Run(w, cmds) == A.Run(w1, cmds[1..]);
    assert cmds[1..][1..] == [];
    assert A.Run(w1, cmds[1..]) == w2;
    DetailScreenShown(w2.app);
    DetailTitleShowsSelected(w2.data.data, row);
  }

  // ---------------------------------------------------------------------------
  // The initial document

  const InitialScreenIds: seq<string> := [HomeScreenId, InitialDetailScreenId]

  lemma InitialBannerResolves()
    ensures Resolves(InitialBanner, InitialScreenIds, DS.DemoColumns)
  {
  }

  lemma InitialGridResolves()
    ensures Resolves(InitialGrid, InitialScreenIds, DS.DemoColumns)
  {
  }

  lemma InitialToolbarResolves()
    ensures Resolves(InitialToolbar, InitialScreenIds, DS.DemoColumns)
  {
  }

  lemma InitialDetailResolves()
    ensures Resolves(InitialDetail, InitialScreenIds, DS.DemoColumns)
  {
  }

  /** The document the store starts with shows its home screen, its ids are
      unique, and every column it reads and every screen it navigates to
      exists. */
  lemma InitialAppWellFormed()
    ensures ActiveExists(InitialApp)
    ensures DistinctScreenIds(InitialApp.screens) && DistinctComponentIds(InitialApp.screens)
    ensures AllResolve(InitialApp.screens, DS.DemoColumns)
  {
    var t := InitialApp.screens;
    assert t[0].id == HomeScreenId;
    assert ScreenIds(t) == InitialScreenIds;
    InitialBannerResolves();
    InitialGridResolves();
    InitialToolbarResolves();
    InitialDetailResolves();
    AllResolveByScreen(t, DS.DemoColumns);
  }
}
