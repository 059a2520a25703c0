/**
  The binding resolver of the component renderer: how a component's displayed
  values are chosen between its own props, the selected row and the dataset,
  how list components filter and cut the dataset into cards, how link
  templates are filled in, and how a video id is read out of a URL.
  Everything here is a pure function of the component's props, the dataset
  rows and the selected row.
 */
module Binding {
  import opened Js
  import opened JsReplace

  /** A prop value used as a property key is converted with `String()`. */
  function Key(v: Value): string {
    ToString(v)
  }

  // ---------------------------------------------------------------------------
  // Text and image resolution (text, button and image components)

  const TextDefault: string := "Text Block"
  const ImagePlaceholder: string := "https://placehold.co/600x400/e2e8f0/94a3b8?text=Image"

  /** The shared shape of `getText` and `getSrc`: when the bind prop is set, the
      selected row's value for that column if truthy, else `String()` of the
      first data row's value (even if missing); otherwise the static prop or the
      default. */
  function Resolve(props: Record, bindKey: string, staticKey: string, default: string,
                   data: seq<Record>, selectedRow: Option<Record>): (r: Value)
    requires default != ""
    ensures var bind := Get(props, bindKey);
            Truthy(bind) && selectedRow.Some? && Truthy(Get(selectedRow.value, Key(bind))) ==>
              r == Str(ToString(Get(selectedRow.value, Key(bind))))
    ensures var bind := Get(props, bindKey);
            Truthy(bind) && (selectedRow.None? || !Truthy(Get(selectedRow.value, Key(bind)))) && |data| > 0 ==>
              r == Str(ToString(Get(data[0], Key(bind))))
    ensures !Truthy(Get(props, bindKey)) || (|data| == 0 && (selectedRow.None? || !Truthy(Get(selectedRow.value, Key(Get(props, bindKey)))))) ==>
              r == (if Truthy(Get(props, staticKey)) then Get(props, staticKey) else Str(default))
    ensures !Truthy(r) ==> Truthy(Get(props, bindKey)) && r == Str("")
  {
    var bind := Get(props, bindKey);
    if Truthy(bind) && selectedRow.Some? && Truthy(Get(selectedRow.value, Key(bind))) then
      Str(ToString(Get(selectedRow.value, Key(bind))))
    else if Truthy(bind) && |data| > 0 then
      Str(ToString(Get(data[0], Key(bind))))
    else
      Or(Get(props, staticKey), Str(default))
  }

  /** `getText()` */
  function GetText(props: Record, data: seq<Record>, selectedRow: Option<Record>): Value {
    Resolve(props, "dataBind_text", "text", TextDefault, data, selectedRow)
  }

  /** `getSrc()` */
  function GetSrc(props: Record, data: seq<Record>, selectedRow: Option<Record>): Value {
    Resolve(props, "dataBind_src", "src", ImagePlaceholder, data, selectedRow)
  }

  /** Only the first data row is ever read, and with a bound column the static
      text is unreachable once there is data: a column the row lacks shows as
      "undefined". */
  lemma GetTextReadsOnlyFirstRow(props: Record, data: seq<Record>, selectedRow: Option<Record>)
    requires |data| > 0 && Truthy(Get(props, "dataBind_text"))
    ensures GetText(props, data, selectedRow) == GetText(props, data[..1], selectedRow)
    ensures selectedRow.None? && Key(Get(props, "dataBind_text")) !in data[0] ==>
              GetText(props, data, selectedRow) == Str("undefined")
  {
  }

  /** The priority example: with rows `Shoe`, `Shirt` and nothing selected a
      text bound to `Title` shows `Shoe`; selecting the `Shirt` row shows `Shirt`. */
  lemma SelectedRowTakesPriority()
    ensures var props := map["dataBind_text" := Str("Title")];
            var rows := [map["Title" := Str("Shoe")], map["Title" := Str("Shirt")]];
            && GetText(props, rows, None) == Str("Shoe")
            && GetText(props, rows, Some(map["Title" := Str("Shirt")])) == Str("Shirt")
  {
  }

  // ---------------------------------------------------------------------------
  // List components: filter, limit, cards

  const DefaultLimit: int := 100

  /** The filter is on only when both `filterColumn` and `filterValue` are truthy. */
  predicate FilterOn(props: Record) {
    Truthy(Get(props, "filterColumn")) && Truthy(Get(props, "filterValue"))
  }

  /** A row passes when the lower-cased cell (`''` for a falsy cell) contains the
      lower-cased filter value. */
  predicate Keeps(props: Record, row: Record) {
    !FilterOn(props) ||
    Includes(Lower(ToString(Or(Get(row, Key(Get(props, "filterColumn"))), Str("")))),
             Lower(ToString(Get(props, "filterValue"))))
  }

  /** `data.filter(...)` */
  function FilterRows(props: Record, data: seq<Record>): (r: seq<Record>)
    ensures Subsequence(r, data)
    ensures forall k :: 0 <= k < |r| ==> Keeps(props, r[k])
    ensures forall row :: row in data && Keeps(props, row) ==> row in r
    ensures forall row :: multiset(r)[row] == if Keeps(props, row) then multiset(data)[row] else 0
    ensures !FilterOn(props) ==> r == data
    decreases |data|
  {
    if |data| == 0 then []
    else
      assert data == [data[0]] + data[1..];
      if Keeps(props, data[0]) then [data[0]] + FilterRows(props, data[1..])
      else FilterRows(props, data[1..])
  }

  /** `limit || 100` as the end index `slice` receives: numbers as they are,
      `true` as 1, a numeral string by its value, anything else as NaN, i.e. 0. */
  function SliceEnd(limit: Value): (end: int)
    ensures !Truthy(limit) ==> end == DefaultLimit
    ensures limit.Num? && limit.n != 0 ==> end == limit.n
  {
    match Or(limit, Num(DefaultLimit))
    case Num(n) => n
    case Bool(b) => if b then 1 else 0
    case Str(s) => if AllDigits(s) then DecimalValue(s) else 0
    case _ => 0
  }

  /** The rows a list component shows: the filtered rows, in order, cut to the limit. */
  function ShownRows(props: Record, data: seq<Record>): (r: seq<Record>)
    ensures Subsequence(r, data) && |r| <= |data|
    ensures |r| <= |FilterRows(props, data)| && r == FilterRows(props, data)[..|r|]
    ensures forall k :: 0 <= k < |r| ==> Keeps(props, r[k])
    ensures var end := SliceEnd(Get(props, "limit"));
            end >= 0 ==> |r| == (if end < |FilterRows(props, data)| then end else |FilterRows(props, data)|)
    ensures var end := SliceEnd(Get(props, "limit"));
            end < 0 ==> |r| == (if |FilterRows(props, data)| + end > 0 then |FilterRows(props, data)| + end else 0)
    ensures !Truthy(Get(props, "limit")) ==> |r| <= DefaultLimit
    ensures Get(props, "limit").Num? && Get(props, "limit").n > 0 ==> |r| <= Get(props, "limit").n
    ensures !FilterOn(props) && !Truthy(Get(props, "limit")) && |data| <= DefaultLimit ==> r == data
  {
    var kept := FilterRows(props, data);
    SliceOfSubsequence(kept, data, SliceEnd(Get(props, "limit")));
    Slice(kept, SliceEnd(Get(props, "limit")))
  }

  /** The filter example: `Cat` rows `Food`, `Tech` filtered by `foo` keep only `Food`. */
  lemma FilterExample()
    ensures var props := map["filterColumn" := Str("Cat"), "filterValue" := Str("foo")];
            FilterRows(props, [map["Cat" := Str("Food")], map["Cat" := Str("Tech")]]) == [map["Cat" := Str("Food")]]
  {
    var props := map["filterColumn" := Str("Cat"), "filterValue" := Str("foo")];
    assert Lower("Food") == "food";
    assert Lower("foo") == "foo";
    assert Lower("Tech") == "tech";
    assert OccursAt("food", "foo", 0);
    assert Keeps(props, map["Cat" := Str("Food")]);
    forall i ensures !OccursAt("tech", "foo", i) {
      if 0 <= i && i + 3 <= 4 {
        assert "tech"[i..i + 3][0] == "tech"[i] != 'f';
      }
    }
    assert !Keeps(props, map["Cat" := Str("Tech")]);
  }

  const CardImagePlaceholder: string := "https://placehold.co/150"

  /** A card's image: `String(row[bind_image] || '')`, or the placeholder when unbound. */
  function CardImage(props: Record, row: Record): (r: string)
    ensures var bind := Get(props, "bind_image");
            Truthy(bind) && Truthy(Get(row, Key(bind))) ==> r == ToString(Get(row, Key(bind)))
    ensures var bind := Get(props, "bind_image");
            Truthy(bind) && !Truthy(Get(row, Key(bind))) ==> r == ""
    ensures !Truthy(Get(props, "bind_image")) ==> r == CardImagePlaceholder
  {
    var bind := Get(props, "bind_image");
    if Truthy(bind) then ToString(Or(Get(row, Key(bind)), Str(""))) else CardImagePlaceholder
  }

  /** A bound field reads the row directly (possibly `undefined`); an unbound
      one shows `fallback`. */
  function CardField(props: Record, bindKey: string, row: Record, fallback: string): (r: Value)
    ensures Truthy(Get(props, bindKey)) ==> r == Get(row, Key(Get(props, bindKey)))
    ensures !Truthy(Get(props, bindKey)) ==> r == Str(fallback)
  {
    var bind := Get(props, bindKey);
    if Truthy(bind) then Get(row, Key(bind)) else Str(fallback)
  }

  datatype ProductCard = ProductCard(image: string, title: Value, subtitle: Value, buttonText: Value)

  /** The card of the `i`-th shown row of a product grid: unbound titles read
      `Item <i+1>` and unbound subtitles `$<(i+1)*10>`. */
  function ProductCardAt(props: Record, row: Record, i: nat): (r: ProductCard)
    ensures Truthy(Get(props, "bind_title")) ==> r.title == Get(row, Key(Get(props, "bind_title")))
    ensures !Truthy(Get(props, "bind_title")) ==>
              && r.title.Str? && |r.title.s| > 5 && r.title.s[..5] == "Item "
              && AllDigits(r.title.s[5..]) && DecimalValue(r.title.s[5..]) == i + 1
    ensures !Truthy(Get(props, "bind_subtitle")) ==>
              && r.subtitle.Str? && |r.subtitle.s| > 1 && r.subtitle.s[0] == '$'
              && AllDigits(r.subtitle.s[1..]) && DecimalValue(r.subtitle.s[1..]) == (i + 1) * 10
    ensures Truthy(Get(props, "bind_subtitle")) ==> r.subtitle == Get(row, Key(Get(props, "bind_subtitle")))
    ensures r.image == CardImage(props, row)
    ensures Truthy(r.buttonText)
    ensures Truthy(Get(props, "buttonText")) ==> r.buttonText == Get(props, "buttonText")
    ensures !Truthy(Get(props, "buttonText")) ==> r.buttonText == Str("Buy")
  {
    var title := "Item " + NatToString(i + 1);
    var subtitle := "$" + NatToString((i + 1) * 10);
    DecimalRoundTrip(i + 1);
    DecimalRoundTrip((i + 1) * 10);
    assert title[5..] == NatToString(i + 1);
    assert subtitle[1..] == NatToString((i + 1) * 10);
    ProductCard(
      CardImage(props, row),
      CardField(props, "bind_title", row, title),
      CardField(props, "bind_subtitle", row, subtitle),
      Or(Get(props, "buttonText"), Str("Buy")))
  }

  datatype NewsCard = NewsCard(image: string, date: Value, title: Value, summary: Option<Value>)

  const NewsDateFallback: string := "12 Oct 2023"

  /** The card of the `i`-th shown row of a news grid: the date falls back to a
      fixed string, the title to `News Title <i+1>`, and the summary appears only
      when bound. */
  function NewsCardAt(props: Record, row: Record, i: nat): (r: NewsCard)
    ensures r.image == CardImage(props, row)
    ensures Truthy(Get(props, "bind_date")) ==> r.date == Get(row, Key(Get(props, "bind_date")))
    ensures !Truthy(Get(props, "bind_date")) ==> r.date == Str(NewsDateFallback)
    ensures Truthy(Get(props, "bind_title")) ==> r.title == Get(row, Key(Get(props, "bind_title")))
    ensures !Truthy(Get(props, "bind_title")) ==>
              && r.title.Str? && |r.title.s| > 11 && r.title.s[..11] == "News Title "
              && AllDigits(r.title.s[11..]) && DecimalValue(r.title.s[11..]) == i + 1
    ensures r.summary.Some? <==> Truthy(Get(props, "bind_summary"))
    ensures r.summary.Some? ==> r.summary.value == Get(row, Key(Get(props, "bind_summary")))
  {
    var title := "News Title " + NatToString(i + 1);
    DecimalRoundTrip(i + 1);
    assert title[11..] == NatToString(i + 1);
    var summaryBind := Get(props, "bind_summary");
    NewsCard(
      CardImage(props, row),
      CardField(props, "bind_date", row, NewsDateFallback),
      CardField(props, "bind_title", row, title),
      if Truthy(summaryBind) then Some(Get(row, Key(summaryBind))) else None)
  }

  /** A list component renders a placeholder without data, else one card per shown row. */
  datatype ListView<T> = ConnectData | Cards(cards: seq<T>, rows: seq<Record>)

  function ProductGridView(props: Record, data: seq<Record>): (v: ListView<ProductCard>)
    ensures |data| == 0 <==> v.ConnectData?
    ensures v.Cards? ==> v.rows == ShownRows(props, data) && |v.cards| == |v.rows|
    ensures v.Cards? ==> forall i :: 0 <= i < |v.cards| ==> v.cards[i] == ProductCardAt(props, v.rows[i], i)
  {
    if |data| == 0 then ConnectData
    else
      var rows := ShownRows(props, data);
      Cards(seq(|rows|, i requires 0 <= i < |rows| => ProductCardAt(props, rows[i], i)), rows)
  }

  function NewsGridView(props: Record, data: seq<Record>): (v: ListView<NewsCard>)
    ensures |data| == 0 <==> v.ConnectData?
    ensures v.Cards? ==> v.rows == ShownRows(props, data) && |v.cards| == |v.rows|
    ensures v.Cards? ==> forall i :: 0 <= i < |v.cards| ==> v.cards[i] == NewsCardAt(props, v.rows[i], i)
  {
    if |data| == 0 then ConnectData
    else
      var rows := ShownRows(props, data);
      Cards(seq(|rows|, i requires 0 <= i < |rows| => NewsCardAt(props, rows[i], i)), rows)
  }

  /** Unbound product titles tell the cards apart: no two cards share one. */
  lemma FallbackTitlesDistinct(props: Record, data: seq<Record>, i: nat, j: nat)
    requires !Truthy(Get(props, "bind_title")) && ProductGridView(props, data).Cards?
    requires i < j < |ProductGridView(props, data).cards|
    ensures ProductGridView(props, data).cards[i].title != ProductGridView(props, data).cards[j].title
  {
    var v := ProductGridView(props, data);
    var ti := v.cards[i].title.s;
    var tj := v.cards[j].title.s;
    assert DecimalValue(ti[5..]) != DecimalValue(tj[5..]);
  }

  // ---------------------------------------------------------------------------
  // Detail views: read the selected row only

  /** `bind && selectedRow && selectedRow[bind]` as `||` sees it: the selected
      row's value for the bound column, or `undefined` (falsy) when either the
      binding or the selected row is missing. */
  function SelectedField(bind: Value, selectedRow: Option<Record>): (r: Value)
    ensures !Truthy(bind) || selectedRow.None? ==> !Truthy(r)
    ensures Truthy(bind) && selectedRow.Some? ==> r == Get(selectedRow.value, Key(bind))
  {
    if Truthy(bind) && selectedRow.Some? then Get(selectedRow.value, Key(bind)) else Undefined
  }

  /** A detail field bound through `bind` takes the selected row's value:
      the binding is set, a row is selected and its value is truthy. */
  predicate Picks(bind: Value, selectedRow: Option<Record>) {
    Truthy(bind) && selectedRow.Some? && Truthy(Get(selectedRow.value, Key(bind)))
  }

  /** `bind && selectedRow ? selectedRow[bind] : fallback` */
  function SelectedOr(bind: Value, selectedRow: Option<Record>, fallback: Value): Value {
    if Truthy(bind) && selectedRow.Some? then Get(selectedRow.value, Key(bind)) else fallback
  }

  datatype ProductDetailView = ProductDetailView(image: Value, title: Value, price: Value, description: Value)

  const ProductImagePlaceholder: string := "https://placehold.co/600x600/f3f4f6/9ca3af?text=Product+Image"

  /** The product detail view. The image tries `dataBind_src`, then
      `dataBind_image` in the selected row, then `src`, then a placeholder; the
      description tries `dataBind_desc`, then `dataBind_description`, then the
      static `description`, then a default. */
  function ProductDetail(props: Record, selectedRow: Option<Record>): (v: ProductDetailView)
    ensures Truthy(v.image) && Truthy(v.description)
    ensures selectedRow.None? ==>
              && v.image == Or(Get(props, "src"), Str(ProductImagePlaceholder))
              && v.title == Or(Get(props, "title"), Str("Product Name"))
              && v.price == Or(Get(props, "price"), Str("Rp 0"))
              && v.description == Or(Get(props, "description"), Str("Product description goes here..."))
    // image: dataBind_src, then dataBind_image, then src, then the placeholder
    ensures Picks(Get(props, "dataBind_src"), selectedRow) ==>
              v.image == SelectedField(Get(props, "dataBind_src"), selectedRow)
    ensures !Picks(Get(props, "dataBind_src"), selectedRow) && Picks(Get(props, "dataBind_image"), selectedRow) ==>
              v.image == SelectedField(Get(props, "dataBind_image"), selectedRow)
    ensures !Picks(Get(props, "dataBind_src"), selectedRow) && !Picks(Get(props, "dataBind_image"), selectedRow) ==>
              v.image == Or(Get(props, "src"), Str(ProductImagePlaceholder))
    // title and price: the selected row's value, even a falsy one, once bound
    ensures Truthy(Get(props, "dataBind_title")) && selectedRow.Some? ==>
              v.title == SelectedField(Get(props, "dataBind_title"), selectedRow)
    ensures !Truthy(Get(props, "dataBind_title")) ==> v.title == Or(Get(props, "title"), Str("Product Name"))
    ensures Truthy(Get(props, "dataBind_price")) && selectedRow.Some? ==>
              v.price == SelectedField(Get(props, "dataBind_price"), selectedRow)
    ensures !Truthy(Get(props, "dataBind_price")) ==> v.price == Or(Get(props, "price"), Str("Rp 0"))
    // description: dataBind_desc, then dataBind_description, then description, then the default
    ensures Picks(Get(props, "dataBind_desc"), selectedRow) ==>
              v.description == SelectedField(Get(props, "dataBind_desc"), selectedRow)
    ensures !Picks(Get(props, "dataBind_desc"), selectedRow) && Picks(Get(props, "dataBind_description"), selectedRow) ==>
              v.description == SelectedField(Get(props, "dataBind_description"), selectedRow)
    ensures !Picks(Get(props, "dataBind_desc"), selectedRow) && !Picks(Get(props, "dataBind_description"), selectedRow) ==>
              v.description == Or(Get(props, "description"), Str("Product description goes here..."))
  {
    ProductDetailView(
      Or(SelectedField(Get(props, "dataBind_src"), selectedRow),
        Or(SelectedField(Get(props, "dataBind_image"), selectedRow),
          Or(Get(props, "src"), Str(ProductImagePlaceholder)))),
      SelectedOr(Get(props, "dataBind_title"), selectedRow, Or(Get(props, "title"), Str("Product Name"))),
      SelectedOr(Get(props, "dataBind_price"), selectedRow, Or(Get(props, "price"), Str("Rp 0"))),
      Or(SelectedField(Get(props, "dataBind_desc"), selectedRow),
        Or(SelectedField(Get(props, "dataBind_description"), selectedRow),
          Or(Get(props, "description"), Str("Product description goes here...")))))
  }

  datatype NewsDetailView = NewsDetailView(image: Value, date: Value, title: Value, content: Value)

  const NewsImagePlaceholder: string := "https://placehold.co/800x400/f3f4f6/9ca3af?text=News+Image"
  const NewsContentDefault: string :=
    "Lorem ipsum dolor sit amet, consectetur adipiscing elit. Sed do eiusmod tempor incididunt ut labore et dolore magna aliqua..."

  /** The news detail view: like the product view, but the date has no static
      prop and the body is bound through `dataBind_content`. */
  function NewsDetail(props: Record, selectedRow: Option<Record>): (v: NewsDetailView)
    ensures Truthy(v.image) && Truthy(v.content)
    ensures selectedRow.None? ==>
              && v.image == Or(Get(props, "src"), Str(NewsImagePlaceholder))
              && v.date == Str("News Category / Date")
              && v.title == Or(Get(props, "title"), Str("Headline News Title"))
              && v.content == Or(Get(props, "description"), Str(NewsContentDefault))
    ensures Picks(Get(props, "dataBind_src"), selectedRow) ==>
              v.image == SelectedField(Get(props, "dataBind_src"), selectedRow)
    ensures !Picks(Get(props, "dataBind_src"), selectedRow) && Picks(Get(props, "dataBind_image"), selectedRow) ==>
              v.image == SelectedField(Get(props, "dataBind_image"), selectedRow)
    ensures !Picks(Get(props, "dataBind_src"), selectedRow) && !Picks(Get(props, "dataBind_image"), selectedRow) ==>
              v.image == Or(Get(props, "src"), Str(NewsImagePlaceholder))
    ensures Truthy(Get(props, "dataBind_date")) && selectedRow.Some? ==>
              v.date == SelectedField(Get(props, "dataBind_date"), selectedRow)
    ensures !Truthy(Get(props, "dataBind_date")) ==> v.date == Str("News Category / Date")
    ensures Truthy(Get(props, "dataBind_title")) && selectedRow.Some? ==>
              v.title == SelectedField(Get(props, "dataBind_title"), selectedRow)
    ensures !Truthy(Get(props, "dataBind_title")) ==> v.title == Or(Get(props, "title"), Str("Headline News Title"))
    ensures Picks(Get(props, "dataBind_content"), selectedRow) ==>
              v.content == SelectedField(Get(props, "dataBind_content"), selectedRow)
    ensures !Picks(Get(props, "dataBind_content"), selectedRow) ==>
              v.content == Or(Get(props, "description"), Str(NewsContentDefault))
  {
    NewsDetailView(
      Or(SelectedField(Get(props, "dataBind_src"), selectedRow),
        Or(SelectedField(Get(props, "dataBind_image"), selectedRow),
          Or(Get(props, "src"), Str(NewsImagePlaceholder)))),
      SelectedOr(Get(props, "dataBind_date"), selectedRow, Str("News Category / Date")),
      SelectedOr(Get(props, "dataBind_title"), selectedRow, Or(Get(props, "title"), Str("Headline News Title"))),
      Or(SelectedField(Get(props, "dataBind_content"), selectedRow),
        Or(Get(props, "description"), Str(NewsContentDefault))))
  }

  /** Detail views never fall back to the first data row: with nothing
      selected a title bound to a column shows the static title, while a text
      component bound to the same column shows the first row's value. */
  lemma DetailIgnoresFirstRow(props: Record, data: seq<Record>)
    requires |data| > 0 && Get(props, "dataBind_title") == Get(props, "dataBind_text")
    requires Truthy(Get(props, "dataBind_text"))
    ensures ProductDetail(props, None).title == Or(Get(props, "title"), Str("Product Name"))
    ensures NewsDetail(props, None).title == Or(Get(props, "title"), Str("Headline News Title"))
    ensures GetText(props, data, None) == Str(ToString(Get(data[0], Key(Get(props, "dataBind_text")))))
  {
  }

  // ---------------------------------------------------------------------------
  // Link templates

  /** The row placeholders are filled from: the selected row, else the first
      data row, else nothing. */
  function ContextRow(selectedRow: Option<Record>, data: seq<Record>): Record {
    match selectedRow
    case Some(row) => row
    case None => if |data| > 0 then data[0] else map[]
  }

  /** `keys` lists the keys of `row` once each, in `Object.keys` order. */
  predicate Enumerates(keys: seq<string>, row: Record) {
    && (forall k :: k in row ==> k in keys)
    && (forall i :: 0 <= i < |keys| ==> keys[i] in row)
    && (forall a, b :: 0 <= a < b < |keys| ==> keys[a] != keys[b])
  }

  /** The pattern `{key}`. */
  function Placeholder(key: string): string {
    "{" + key + "}"
  }

  /** A text without `{` contains no placeholder. */
  lemma NoBraceNoPlaceholder(s: string, key: string)
    requires '{' !in s
    ensures !Includes(s, Placeholder(key))
  {
    var p := Placeholder(key);
    forall i ensures !OccursAt(s, p, i) {
      if 0 <= i && i + |p| <= |s| {
        assert s[i..i + |p|][0] == s[i] != p[0];
      }
    }
  }

  /** One `result.replace('{key}', String(row[key]))` per key, in order, each
      working on the text the previous ones produced. */
  function Substitute(url: string, row: Record, keys: seq<string>): (r: string)
    ensures '{' !in url ==> r == url
    decreases |keys|
  {
    if |keys| == 0 then url
    else
      var next := ReplaceFirst(url, Placeholder(keys[0]), ToString(Get(row, keys[0])));
      assert '{' !in url ==> next == url by {
        if '{' !in url { NoBraceNoPlaceholder(url, keys[0]); }
      }
      Substitute(next, row, keys[1..])
  }

  /** `formatUrl(url)`, given the order `Object.keys` lists the context row in. */
  function FormatUrl(url: string, selectedRow: Option<Record>, data: seq<Record>, keys: seq<string>): (r: string)
    requires Enumerates(keys, ContextRow(selectedRow, data))
    ensures ContextRow(selectedRow, data) == map[] ==> r == url
    ensures '{' !in url ==> r == url
  {
    Substitute(url, ContextRow(selectedRow, data), keys)
  }

  // A link template as the renderer's author writes it: literal text and
  // `{key}` placeholders.

  datatype Piece = Lit(text: string) | Hole(key: string)

  /** The text of a template in which the placeholders of `filled` keys have
      been replaced by the row's values. */
  function Render(pieces: seq<Piece>, filled: set<string>, row: Record): string
    decreases |pieces|
  {
    if |pieces| == 0 then "" else RenderPiece(pieces[0], filled, row) + Render(pieces[1..], filled, row)
  }

  function RenderPiece(p: Piece, filled: set<string>, row: Record): string {
    match p
    case Lit(t) => t
    case Hole(k) => if k in filled then ToString(Get(row, k)) else Placeholder(k)
  }

  predicate BraceFree(s: string) {
    '{' !in s && '}' !in s
  }

  /** Literal text holds no `{`, keys hold no brace, and no key appears twice. */
  predicate WellFormedTemplate(pieces: seq<Piece>) {
    && (forall i :: 0 <= i < |pieces| && pieces[i].Lit? ==> '{' !in pieces[i].text)
    && (forall i :: 0 <= i < |pieces| && pieces[i].Hole? ==> BraceFree(pieces[i].key))
    && (forall i, j :: 0 <= i < j < |pieces| && pieces[i].Hole? && pieces[j].Hole? ==> pieces[i].key != pieces[j].key)
  }

  lemma WellFormedTail(pieces: seq<Piece>)
    requires |pieces| > 0 && WellFormedTemplate(pieces)
    ensures WellFormedTemplate(pieces[1..])
    ensures pieces[0].Hole? ==> forall i :: 0 <= i < |pieces[1..]| && pieces[1..][i].Hole? ==> pieces[1..][i].key != pieces[0].key
  {
    var t := pieces[1..];
    forall i, j | 0 <= i < j < |t| && t[i].Hole? && t[j].Hole? ensures t[i].key != t[j].key {
      assert t[i] == pieces[i + 1] && t[j] == pieces[j + 1];
    }
    if pieces[0].Hole? {
      forall i | 0 <= i < |t| && t[i].Hole? ensures t[i].key != pieces[0].key {
        assert t[i] == pieces[i + 1];
      }
    }
  }

  /** Filling a key no hole carries changes nothing. */
  lemma {:induction false} RenderIgnoresAbsentKey(pieces: seq<Piece>, filled: set<string>, row: Record, k: string)
    requires forall i :: 0 <= i < |pieces| && pieces[i].Hole? ==> pieces[i].key != k
    ensures Render(pieces, filled + {k}, row) == Render(pieces, filled, row)
    decreases |pieces|
  {
    if |pieces| > 0 {
      assert forall i :: 0 <= i < |pieces[1..]| ==> pieces[1..][i] == pieces[i + 1];
      RenderIgnoresAbsentKey(pieces[1..], filled, row, k);
    }
  }

  /** A placeholder cannot start inside a text without `{`. */
  lemma NoPlaceholderStartsIn(a: string, b: string, k: string)
    requires '{' !in a
    ensures forall i :: 0 <= i < |a| ==> !OccursAt(a + b, Placeholder(k), i)
  {
    var p := Placeholder(k);
    forall i | 0 <= i < |a| ensures !OccursAt(a + b, p, i) {
      if i + |p| <= |a + b| {
        assert (a + b)[i..i + |p|][0] == a[i] != p[0];
      }
    }
  }

  /** Two placeholders of different brace-free keys never overlap at the
      start of the first. */
  lemma PlaceholderMismatch(h: string, k: string, rest: string)
    requires h != k && BraceFree(h) && BraceFree(k)
    ensures !OccursAt(Placeholder(h) + rest, Placeholder(k), 0)
  {
    var t, p := Placeholder(h) + rest, Placeholder(k);
    if |p| <= |t| {
      var d: int;
      if |k| < |h| {
        d := |k| + 1;
        assert t[d] == h[|k|] && p[d] == '}';
      } else if |k| > |h| {
        d := |h| + 1;
        assert t[d] == '}' && p[d] == k[|h|];
      } else {
        assert !(forall e :: 0 <= e < |k| ==> h[e] == k[e]);
        var e :| 0 <= e < |k| && h[e] != k[e];
        d := e + 1;
        assert t[d] == h[e] && p[d] == k[e];
      }
      assert t[0..|p|][d] == t[d];
    }
  }

  /** Another key's placeholder is skipped over whole. */
  lemma SkipOtherPlaceholder(h: string, k: string, rest: string)
    requires h != k && BraceFree(h) && BraceFree(k)
    ensures forall i :: 0 <= i < |Placeholder(h)| ==> !OccursAt(Placeholder(h) + rest, Placeholder(k), i)
  {
    var ph, p := Placeholder(h), Placeholder(k);
    PlaceholderMismatch(h, k, rest);
    forall i | 1 <= i < |ph| ensures !OccursAt(ph + rest, p, i) {
      if i + |p| <= |ph + rest| {
        assert (ph + rest)[i..i + |p|][0] == ph[i] != p[0];
      }
    }
  }

  /** One `replace` for key `k` fills `k`'s hole, if it is still open, and
      nothing else. */
  lemma {:induction false} FillStep(pieces: seq<Piece>, filled: set<string>, row: Record, k: string)
    requires WellFormedTemplate(pieces) && BraceFree(k) && '$' !in ToString(Get(row, k))
    requires forall f :: f in filled ==> '{' !in ToString(Get(row, f))
    ensures ReplaceFirst(Render(pieces, filled, row), Placeholder(k), ToString(Get(row, k)))
            == Render(pieces, filled + {k}, row)
    decreases |pieces|
  {
    var p, v := Placeholder(k), ToString(Get(row, k));
    if |pieces| == 0 {
      assert !Includes("", p);
    } else {
      var tail := pieces[1..];
      var rest, rest' := Render(tail, filled, row), Render(tail, filled + {k}, row);
      WellFormedTail(pieces);
      FillStep(tail, filled, row, k);
      match pieces[0]
      case Lit(t) =>
        NoPlaceholderStartsIn(t, rest, k);
        ReplaceFirstAfterPrefix(t, rest, p, v);
      case Hole(h) =>
        if h in filled {
          var w := ToString(Get(row, h));
          NoPlaceholderStartsIn(w, rest, k);
          ReplaceFirstAfterPrefix(w, rest, p, v);
        } else if h == k {
          ReplaceAtStart(p, rest, v);
          RenderIgnoresAbsentKey(tail, filled, row, k);
        } else {
          SkipOtherPlaceholder(h, k, rest);
          ReplaceFirstAfterPrefix(Placeholder(h), rest, p, v);
        }
    }
  }

  /** Values a link can take in unchanged: no `{` to be read as a
      placeholder and no `$` to be read as a pattern. */
  predicate PlainValue(v: string) {
    '{' !in v && '$' !in v
  }

  /** The keys run in order, each filling its own hole. */
  lemma {:induction false} SubstituteFillsHoles(pieces: seq<Piece>, filled: set<string>, row: Record, keys: seq<string>)
    requires WellFormedTemplate(pieces)
    requires forall i :: 0 <= i < |keys| ==> BraceFree(keys[i]) && PlainValue(ToString(Get(row, keys[i])))
    requires forall f :: f in filled ==> '{' !in ToString(Get(row, f))
    ensures Substitute(Render(pieces, filled, row), row, keys) == Render(pieces, filled + (set k | k in keys), row)
    decreases |keys|
  {
    if |keys| == 0 {
      assert filled + (set k | k in keys) == filled;
    } else {
      var k := keys[0];
      FillStep(pieces, filled, row, k);
      assert forall i :: 0 <= i < |keys[1..]| ==> keys[1..][i] == keys[i + 1];
      SubstituteFillsHoles(pieces, filled + {k}, row, keys[1..]);
      assert filled + {k} + (set x | x in keys[1..]) == filled + (set x | x in keys);
    }
  }

  /** Every hole of a template whose key is filled shows a value without `{`:
      nothing of the template is left to fill. */
  lemma {:induction false} RenderFilledHasNoBrace(pieces: seq<Piece>, filled: set<string>, row: Record)
    requires WellFormedTemplate(pieces)
    requires forall i :: 0 <= i < |pieces| && pieces[i].Hole? ==> pieces[i].key in filled
    requires forall f :: f in filled ==> '{' !in ToString(Get(row, f))
    ensures '{' !in Render(pieces, filled, row)
    decreases |pieces|
  {
    if |pieces| > 0 {
      WellFormedTail(pieces);
      assert forall i :: 0 <= i < |pieces[1..]| ==> pieces[1..][i] == pieces[i + 1];
      RenderFilledHasNoBrace(pieces[1..], filled, row);
    }
  }

  /** `formatUrl` on a link made of literal text and distinct placeholders:
      every placeholder whose key the context row has is replaced by that
      value, every other one stays, and the literal text is kept in order. A
      link whose every placeholder names a key of the row comes out with no
      placeholder left. */
  lemma FormatUrlFillsHoles(pieces: seq<Piece>, selectedRow: Option<Record>, data: seq<Record>, keys: seq<string>)
    requires Enumerates(keys, ContextRow(selectedRow, data))
    requires WellFormedTemplate(pieces)
    requires forall k :: k in ContextRow(selectedRow, data) ==>
               BraceFree(k) && PlainValue(ToString(Get(ContextRow(selectedRow, data), k)))
    ensures var row := ContextRow(selectedRow, data);
            FormatUrl(Render(pieces, {}, row), selectedRow, data, keys) == Render(pieces, row.Keys, row)
    ensures var row := ContextRow(selectedRow, data);
            (forall i :: 0 <= i < |pieces| && pieces[i].Hole? ==> pieces[i].key in row) ==>
              '{' !in FormatUrl(Render(pieces, {}, row), selectedRow, data, keys)
  {
    var row := ContextRow(selectedRow, data);
    SubstituteFillsHoles(pieces, {}, row, keys);
    assert {} + (set k | k in keys) == row.Keys;
    if forall i :: 0 <= i < |pieces| && pieces[i].Hole? ==> pieces[i].key in row {
      RenderFilledHasNoBrace(pieces, row.Keys, row);
    }
  }

  /** Only the first occurrence of a placeholder is filled in. */
  lemma OnlyFirstOccurrenceFilled(key: string, v: string)
    requires '$' !in v
    ensures FormatUrl(Placeholder(key) + Placeholder(key), Some(map[key := Str(v)]), [], [key]) ==
              v + Placeholder(key)
  {
    var p := Placeholder(key);
    var s := p + p;
    var row := map[key := Str(v)];
    assert OccursAt(s, p, 0);
    assert IndexOf(s, p) == 0;
    assert s[|p|..] == p;
    assert ToString(Get(row, key)) == v;
    var next := ReplaceFirst(s, p, v);
    assert next == v + p;
    assert Substitute(s, row, [key]) == Substitute(next, row, []);
  }

  /** A placeholder standing alone is replaced by the value. */
  lemma FillAlone(key: string, v: string)
    requires '$' !in v
    ensures ReplaceFirst(Placeholder(key), Placeholder(key), v) == v
  {
    var p := Placeholder(key);
    assert OccursAt(p, p, 0);
    assert IndexOf(p, p) == 0;
    assert p[..0] == [] && p[|p|..] == [];
  }

  /** A value filled in for one key is scanned again by the keys after it: a
      value that is itself a placeholder gets filled in turn. */
  lemma FilledValuesAreRescanned(a: string, b: string, v: string)
    requires a != b && '$' !in b && '$' !in v
    ensures FormatUrl(Placeholder(a), Some(map[a := Str(Placeholder(b)), b := Str(v)]), [], [a, b]) == v
  {
    var row := map[a := Str(Placeholder(b)), b := Str(v)];
    assert '$' !in Placeholder(b);
    FillAlone(a, Placeholder(b));
    FillAlone(b, v);
    assert ToString(Get(row, a)) == Placeholder(b);
    assert ToString(Get(row, b)) == v;
    assert [a, b][1..] == [b];
    assert Substitute(Placeholder(a), row, [a, b]) == Substitute(Placeholder(b), row, [b]);
    assert Substitute(Placeholder(b), row, [b]) == Substitute(v, row, []);
  }

  // ---------------------------------------------------------------------------
  // Video id

  /** The video component's id extraction, tried in order: after the first
      `v=` up to `&` (or a second `v=`), after `youtu.be/` up to `?`, after
      `embed/` up to `?`, the whole text if it has no `/` and is longer than 5
      UTF-16 code units, and otherwise nothing. */
  function VideoId(src: string): (r: string)
    ensures Includes(src, "v=") ==> ReadAfter(src, "v=", "&", r)
    ensures !Includes(src, "v=") && Includes(src, "youtu.be/") ==> ReadAfter(src, "youtu.be/", "?", r)
    ensures !Includes(src, "v=") && !Includes(src, "youtu.be/") && Includes(src, "embed/") ==>
              ReadAfter(src, "embed/", "?", r)
    ensures !Includes(src, "v=") && !Includes(src, "youtu.be/") && !Includes(src, "embed/") ==>
              r == (if !Includes(src, "/") && Utf16Length(src) > 5 then src else "")
  {
    if Includes(src, "v=") then SegmentUpTo(src, "v=", "&")
    else if Includes(src, "youtu.be/") then SegmentUpTo(src, "youtu.be/", "?")
    else if Includes(src, "embed/") then SegmentUpTo(src, "embed/", "?")
    else if !Includes(src, "/") && Utf16Length(src) > 5 then src
    else ""
  }

  /** Five characters of which one lies outside the Basic Multilingual Plane
      are six code units. */
  lemma AstralCharCountsTwice()
    ensures Utf16Length("ab\U{1F600}cd") == 6
  {
    var s := "ab\U{1F600}cd";
    assert s == "ab" + ["\U{1F600}"[0]] + "cd";
    Utf16LengthConcat("ab", ["\U{1F600}"[0]] + "cd");
    Utf16LengthConcat(["\U{1F600}"[0]], "cd");
  }

  /** So such a five-character text without `/` or a marker is taken as an
      id, as the code-unit length test in the player does. */
  lemma AstralTextIsVideoId()
    ensures VideoId("ab\U{1F600}cd") == "ab\U{1F600}cd"
  {
    var s := "ab\U{1F600}cd";
    AstralCharCountsTwice();
    assert 'v' !in s && 'y' !in s && 'e' !in s && '/' !in s;
    FirstCharAbsent(s, "v=");
    FirstCharAbsent(s, "youtu.be/");
    FirstCharAbsent(s, "embed/");
    FirstCharAbsent(s, "/");
  }

  /** The video component shows an embedded player for a non-empty id and a
      prompt otherwise. */
  datatype VideoView = EnterUrlPrompt | Embed(url: string)

  function Video(props: Record): (v: VideoView)
    requires Or(Get(props, "src"), Str("")).Str?
    ensures v.Embed? <==> VideoId(Or(Get(props, "src"), Str("")).s) != ""
    ensures v.Embed? ==> v.url == "https://www.youtube.com/embed/" + VideoId(Or(Get(props, "src"), Str("")).s)
  {
    var id := VideoId(Or(Get(props, "src"), Str("")).s);
    if id == "" then EnterUrlPrompt else Embed("https://www.youtube.com/embed/" + id)
  }

  /** `src.split(marker)[1].split(stop)[0]` when `marker` occurs. */
  function SegmentUpTo(src: string, marker: string, stop: string): (r: string)
    requires Includes(src, marker) && |marker| > 0 && |stop| > 0
    ensures ReadAfter(src, marker, stop, r)
  {
    var i := IndexOf(src, marker);
    var rest := After(src, marker);
    var segment := SecondSegment(src, marker);
    var r := Before(segment, stop);
    SegmentFacts(src, marker, stop, i, rest, segment, r);
    r
  }

  lemma SegmentFacts(src: string, marker: string, stop: string, i: int, rest: string, segment: string, r: string)
    requires |marker| > 0 && |stop| > 0 && i >= 0 && OccursAt(src, marker, i)
    requires rest == src[i + |marker|..]
    requires segment == Before(rest, marker) && r == Before(segment, stop)
    ensures OccursAt(src, marker + r, i)
    ensures !Includes(r, stop) && !Includes(r, marker)
    ensures SegmentEnds(src, i + |marker| + |r|, marker, stop)
  {
    var k := i + |marker|;
    PrefixChain(src, k, segment, r);
    MarkerPrecedes(src, marker, i, r);
    PrefixKeepsAbsence(segment, marker, |r|);
    SegmentEndsAt(src, marker, stop, k, segment, r);
  }

  lemma PrefixChain(src: string, k: int, segment: string, r: string)
    requires 0 <= k <= |src|
    requires |segment| <= |src| - k && segment == src[k..][..|segment|]
    requires |r| <= |segment| && r == segment[..|r|]
    ensures k + |r| <= |src| && r == src[k..k + |r|]
  {
  }

  lemma MarkerPrecedes(src: string, marker: string, i: int, r: string)
    requires i >= 0 && OccursAt(src, marker, i)
    requires i + |marker| + |r| <= |src| && r == src[i + |marker|..i + |marker| + |r|]
    ensures OccursAt(src, marker + r, i)
  {
    assert src[i..i + |marker + r|] == src[i..i + |marker|] + src[i + |marker|..i + |marker| + |r|];
  }

  /** The segment cut from `src[k..]` at the first `marker` and then at the
      first `stop` ends at one of the two or at the end of the text. */
  lemma SegmentEndsAt(src: string, marker: string, stop: string, k: int, segment: string, r: string)
    requires 0 <= k <= |src|
    requires segment == Before(src[k..], marker) && r == Before(segment, stop)
    ensures SegmentEnds(src, k + |r|, marker, stop)
  {
    var rest := src[k..];
    if Includes(segment, stop) {
      assert OccursAt(segment, stop, |r|);
      assert segment == src[k..k + |segment|];
      OccursInSlice(src, k, k + |segment|, stop, |r|);
    } else if Includes(rest, marker) {
      assert r == segment && |segment| == IndexOf(rest, marker);
      assert rest == src[k..|src|];
      OccursInSlice(src, k, |src|, marker, |r|);
    }
  }

  /** `r` is read from `src` right after the first `marker`: it holds neither
      `stop` nor `marker`, and it runs on until the end of the text, a `stop`
      or another `marker`. */
  predicate ReadAfter(src: string, marker: string, stop: string, r: string) {
    && OccursAt(src, marker + r, IndexOf(src, marker))
    && !Includes(r, stop) && !Includes(r, marker)
    && SegmentEnds(src, IndexOf(src, marker) + |marker| + |r|, marker, stop)
  }

  /** A segment read after a marker ends at `j`: at the end of the text, at
      `stop`, or at the next `marker`. */
  predicate SegmentEnds(src: string, j: int, marker: string, stop: string) {
    j == |src| || OccursAt(src, stop, j) || OccursAt(src, marker, j)
  }

  /** A segment placed right after `marker`, holding neither `stop` nor
      `marker`, is read back whole. */
  lemma SegmentUpToRoundTrip(marker: string, id: string, stop: string)
    requires |marker| > 0 && |stop| > 0
    requires !Includes(id, stop) && !Includes(id, marker)
    ensures Includes(marker + id, marker)
    ensures SegmentUpTo(marker + id, marker, stop) == id
  {
    var s := marker + id;
    assert OccursAt(s, marker, 0);
    assert IndexOf(s, marker) == 0;
    assert After(s, marker) == id;
    assert SecondSegment(s, marker) == id;
  }

  /** A short link `youtu.be/<id>` embeds exactly that id, as long as the
      `v=` rule does not fire first. */
  lemma ShortLinkEmbedsId(id: string)
    requires id != "" && !Includes(id, "?") && !Includes(id, "youtu.be/")
    requires !Includes("youtu.be/" + id, "v=")
    ensures Video(map["src" := Str("youtu.be/" + id)]) == Embed("https://www.youtube.com/embed/" + id)
  {
    SegmentUpToRoundTrip("youtu.be/", id, "?");
  }
}
