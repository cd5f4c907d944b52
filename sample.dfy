/**
 * The six sample rows that data_generator.py writes, as the loader reads
 * them back (the generated file has no `variation_text` column), and what
 * the page shows for them.
 */
module Sample {
  import opened Text
  import opened Sequences
  import opened Catalog
  import opened Listing
  import opened Session

  const Bed01 := Product("ベッド", "跳ね上げ式収納ベッド", "", 85000,
    "★布団も入る大容量収納！\n★女性でも軽く持ち上がるガス圧式\n★通気性の良い床板で湿気対策",
    "https://caguuu.com/products/bed01", "https://placehold.jp/200x200.png?text=Bed01")
  const Bed02 := Product("ベッド", "コンセント付き宮棚ベッド", "", 69000,
    "★スマホ充電OK！宮棚＋コンセント付き\n★圧迫感が少ないシンプルデザイン\n★組立てしやすい設計",
    "https://caguuu.com/products/bed02", "https://placehold.jp/200x200.png?text=Bed02")
  const Sofa01 := Product("ソファ", "3人掛けレザーソファ", "", 120000,
    "★傷に強い新素材レザー使用\n★ペットがいても安心\n★お手入れはサッと拭くだけ",
    "https://caguuu.com/products/sofa01", "https://placehold.jp/200x200.png?text=Sofa01")
  const Sofa02 := Product("ソファ", "ゆったりカウチソファ（右カウチ）", "", 158000,
    "★足を伸ばせるカウチでくつろぎ最大\n★座面が広く家族で使いやすい\n★カバーは外してお手入れ可能（※仕様に応じて）",
    "https://caguuu.com/products/sofa02", "https://placehold.jp/200x200.png?text=Sofa02")
  const Table01 := Product("テーブル", "昇降リビングテーブル", "", 49800,
    "★食事もPC作業もこれ1台\n★高さ調整で姿勢がラク\n★収納スペース付きで散らかりにくい",
    "https://caguuu.com/products/table01", "https://placehold.jp/200x200.png?text=Table01")
  const Table02 := Product("テーブル", "丸型ダイニングテーブル（4人用）", "", 78000,
    "★角がなく安心、動線がスムーズ\n★会話がしやすい丸テーブル\n★木目がきれいで部屋が明るく見える",
    "https://caguuu.com/products/table02", "https://placehold.jp/200x200.png?text=Table02")

  const SampleCatalog: seq<Product> := [Bed01, Bed02, Sofa01, Sofa02, Table01, Table02]

  function Column(f: Product -> string): seq<Option<string>> {
    seq(|SampleCatalog|, i requires 0 <= i < |SampleCatalog| => Some(f(SampleCatalog[i])))
  }

  /** The generated file as parsed: every cell filled, no `variation_text` column. */
  function GeneratedFrame(): RawFrame {
    RawFrame(
      |SampleCatalog|,
      map[
        "category" := Column((p: Product) => p.category),
        "product_name" := Column((p: Product) => p.productName),
        "sales_point" := Column((p: Product) => p.salesPoint),
        "ec_url" := Column((p: Product) => p.ecUrl),
        "image_url" := Column((p: Product) => p.imageUrl)],
      seq(|SampleCatalog|, i requires 0 <= i < |SampleCatalog| => Some(SampleCatalog[i].price)))
  }

  /** Loading the generated file gives back the sample rows, with an empty variation text. */
  lemma GeneratedFrameLoads()
    ensures WellFormed(GeneratedFrame())
    ensures forall i :: 0 <= i < |SampleCatalog| ==> RowAt(GeneratedFrame(), i) == SampleCatalog[i]
  {
    var f := GeneratedFrame();
    assert "variation_text" !in f.text;
  }

  /** One more value at the end of `xs` is added to its distinct values unless already there. */
  lemma UniqueSnoc(xs: seq<string>, x: string)
    ensures Unique(xs + [x]) == if x in Unique(xs) then Unique(xs) else Unique(xs) + [x]
  {
    assert (xs + [x])[..|xs + [x]| - 1] == xs;
  }

  /** Three values, each twice in a row, leave three distinct values in order. */
  lemma UniqueOfPairs(a: string, b: string, c: string)
    requires a != b && b != c && a != c
    ensures Unique([a, a, b, b, c, c]) == [a, b, c]
  {
    assert [a] == [] + [a];
    UniqueSnoc([], a);
    assert Unique([a]) == [a];
    assert [a, a] == [a] + [a];
    UniqueSnoc([a], a);
    assert Unique([a, a]) == [a];
    assert [a, a, b] == [a, a] + [b];
    UniqueSnoc([a, a], b);
    assert b !in [a];
    assert Unique([a, a, b]) == [a, b];
    assert [a, a, b, b] == [a, a, b] + [b];
    UniqueSnoc([a, a, b], b);
    assert Unique([a, a, b, b]) == [a, b];
    assert [a, a, b, b, c] == [a, a, b, b] + [c];
    UniqueSnoc([a, a, b, b], c);
    assert c !in [a, b];
    assert Unique([a, a, b, b, c]) == [a, b, c];
    assert [a, a, b, b, c, c] == [a, a, b, b, c] + [c];
    UniqueSnoc([a, a, b, b, c], c);
  }

  /** A value whose first character is not white space is shown in the switcher. */
  lemma ShownWhenFirstIsNotSpace(c: string)
    requires c != [] && !IsSpace(c[0])
    ensures IsShownCategory(c)
  {
    StripEmptyIffBlank(c);
  }

  /** Values that each start with a non-white-space character are all shown. */
  lemma {:induction false} AllShown(xs: seq<string>)
    requires forall k :: 0 <= k < |xs| ==> xs[k] != [] && !IsSpace(xs[k][0])
    ensures Keep(xs, IsShownCategory) == xs
  {
    forall k | 0 <= k < |xs|
      ensures IsShownCategory(xs[k])
    {
      ShownWhenFirstIsNotSpace(xs[k]);
    }
    KeepAll(xs, IsShownCategory);
  }

  /** Sorting three values whose first is the greatest moves it to the end. */
  lemma SortThreeFirstLast<T>(a: T, b: T, c: T, key: T -> string)
    requires LexLe(key(b), key(c)) && !LexLe(key(a), key(b)) && !LexLe(key(a), key(c))
    ensures SortBy([a, b, c], key) == [b, c, a]
  {
    assert [a, b, c][1..] == [b, c] && [b, c][1..] == [c];
    assert SortBy([c], key) == [c];
    assert SortBy([b, c], key) == [b, c];
    assert Insert(a, [c], key) == [c, a];
    assert Insert(a, [b, c], key) == [b, c, a];
  }

  /**
   * A catalog whose category column holds three shown values, each twice in
   * a row, the first of them the greatest: the switcher lists the sentinel,
   * then the other two, then the first.
   */
  lemma CategoryListOfPairs(catalog: seq<Product>, a: string, b: string, c: string)
    requires CategoryColumn(catalog) == [a, a, b, b, c, c]
    requires a != b && b != c && a != c
    requires a != [] && !IsSpace(a[0]) && b != [] && !IsSpace(b[0]) && c != [] && !IsSpace(c[0])
    requires LexLe(b, c) && !LexLe(a, b) && !LexLe(a, c)
    ensures CategoryList(catalog) == [AllProducts, b, c, a]
  {
    UniqueOfPairs(a, b, c);
    assert Unique(CategoryColumn(catalog)) == [a, b, c];
    AllShown([a, b, c]);
    assert ShownCategories(catalog) == [a, b, c];
    SortThreeFirstLast(a, b, c, Identity);
    assert CategoryList(catalog) == [AllProducts] + [b, c, a];
  }

  /** The switcher of the sample catalog. */
  lemma SampleCategories()
    ensures CategoryList(SampleCatalog) == [AllProducts, "ソファ", "テーブル", "ベッド"]
  {
    var a, b, c := "ベッド", "ソファ", "テーブル";
    assert CategoryColumn(SampleCatalog) == [a, a, b, b, c, c];
    assert LexLe(b, c) && !LexLe(a, b) && !LexLe(a, c);
    CategoryListOfPairs(SampleCatalog, a, b, c);
  }

  /** The bed category keeps the two beds, in catalog order. */
  lemma SampleBedsMasked()
    ensures Masked(SampleCatalog, "ベッド", "") == [Bed01, Bed02]
  {
    var beds := p => Selects(p, "ベッド", "");
    assert Masked(SampleCatalog, "ベッド", "") == Keep(SampleCatalog, beds);
    assert Keep(SampleCatalog[2..], beds) == [] by {
      assert Keep(SampleCatalog[6..], beds) == [];
      assert Keep(SampleCatalog[5..], beds) == [];
      assert Keep(SampleCatalog[4..], beds) == [];
      assert Keep(SampleCatalog[3..], beds) == [];
    }
  }

  /** The bed category shows its two beds, sorted by name. */
  lemma SampleBeds()
    ensures Query(SampleCatalog, "ベッド", "") == [Bed02, Bed01]
  {
    SampleBedsMasked();
    assert [Bed01, Bed02][1..] == [Bed02];
    assert SortBy([Bed02], ProductName) == [Bed02];
    assert !LexLe(Bed01.productName, Bed02.productName);
    assert Insert(Bed01, [Bed02], ProductName) == [Bed02, Bed01];
  }
}
