/**
 * The product record and the loader's normalisation of a parsed CSV table
 * (`load_products` in app.py). Reading the file is not modelled: the
 * loader receives the table as pandas has parsed it, column by column, with
 * a null marker for empty cells.
 */
module Catalog {

  datatype Option<T> = None | Some(value: T) {
    function GetOr(default: T): T {
      match this
      case Some(v) => v
      case None => default
    }
  }

  /** One catalog row after normalisation: every text field is a string. */
  datatype Product = Product(
    category: string,
    productName: string,
    variationText: string,
    price: int,
    salesPoint: string,
    ecUrl: string,
    imageUrl: string)

  /** The six text columns, in the order the loader visits them. */
  const TextColumns: seq<string> :=
    ["category", "product_name", "variation_text", "sales_point", "ec_url", "image_url"]

  /**
   * A table as the CSV reader hands it over: `rowCount` rows, the text
   * columns present in the file (a missing column has no key; a null cell is
   * `None`), and the price column, each cell already coerced by
   * `to_numeric(errors="coerce")` (`None` for a missing or non-numeric
   * value).
   */
  datatype RawFrame = RawFrame(
    rowCount: nat,
    text: map<string, seq<Option<string>>>,
    price: seq<Option<int>>)

  /** All columns of a frame have one cell per row. */
  predicate WellFormed(f: RawFrame) {
    && (forall c :: c in f.text ==> |f.text[c]| == f.rowCount)
    && |f.price| == f.rowCount
  }

  /** The string a text cell holds after normalisation. */
  function TextCell(f: RawFrame, col: string, i: nat): string
    requires WellFormed(f) && i < f.rowCount
  {
    if col in f.text then f.text[col][i].GetOr("") else ""
  }

  /** Row `i` of the normalised table. */
  function RowAt(f: RawFrame, i: nat): Product
    requires WellFormed(f) && i < f.rowCount
  {
    Product(
      TextCell(f, "category", i),
      TextCell(f, "product_name", i),
      TextCell(f, "variation_text", i),
      f.price[i].GetOr(0),
      TextCell(f, "sales_point", i),
      TextCell(f, "ec_url", i),
      TextCell(f, "image_url", i))
  }

  /**
   * A text column with every null cell replaced by `""` (`fillna("")`): no
   * null is left, and a cell that held a string keeps it.
   */
  function FillNa(column: seq<Option<string>>): (r: seq<Option<string>>)
    ensures |r| == |column|
    ensures forall i :: 0 <= i < |r| ==> r[i].Some?
    ensures forall i :: 0 <= i < |r| && column[i].Some? ==> r[i] == column[i]
  {
    seq(|column|, i requires 0 <= i < |column| => Some(column[i].GetOr("")))
  }

  /** Column `c` of `columns` holds the normalised cells of column `c` of `raw`. */
  predicate NormalisedColumn(raw: RawFrame, columns: map<string, seq<Option<string>>>, c: string)
    requires WellFormed(raw)
  {
    && c in columns
    && |columns[c]| == raw.rowCount
    && (forall i :: 0 <= i < raw.rowCount ==> columns[c][i] == Some(TextCell(raw, c, i)))
  }

  /**
   * The loader's loop over the six text columns: each one is created as an
   * all-`""` column when the file lacks it, and has its nulls filled with
   * `""`. Every other column is left as it was, and no other column is added.
   */
  method FillTextColumns(raw: RawFrame) returns (columns: map<string, seq<Option<string>>>)
    requires WellFormed(raw)
    ensures forall j :: 0 <= j < |TextColumns| ==> NormalisedColumn(raw, columns, TextColumns[j])
    ensures forall c :: c in raw.text && c !in TextColumns ==> c in columns && columns[c] == raw.text[c]
    ensures forall c :: c in columns ==> c in raw.text || c in TextColumns
  {
    columns := raw.text;
    for k := 0 to |TextColumns|
      invariant forall c :: c in columns ==> |columns[c]| == raw.rowCount
      invariant forall c :: c in TextColumns[..k] ==> NormalisedColumn(raw, columns, c)
      invariant forall c :: c in raw.text && c !in TextColumns[..k] ==> c in columns && columns[c] == raw.text[c]
      invariant forall c :: c in columns ==> c in raw.text || c in TextColumns[..k]
    {
      var col := TextColumns[k];
      assert TextColumns[..k + 1] == TextColumns[..k] + [col];
      assert col !in TextColumns[..k] by {
        assert forall j :: 0 <= j < |TextColumns| && j != k ==> TextColumns[j] != col;
      }
      if col !in columns {
        columns := columns[col := seq(raw.rowCount, i => Some(""))];
      }
      columns := columns[col := FillNa(columns[col])];
    }
    assert TextColumns[..|TextColumns|] == TextColumns;
  }

  /** Cell `i` of column `c`; every cell the loader reads exists once the columns are normalised. */
  function Cell(columns: map<string, seq<Option<string>>>, c: string, i: nat): string {
    if c in columns && i < |columns[c]| then columns[c][i].GetOr("") else ""
  }

  /** Row `i` read from the normalised columns and the converted prices. */
  function RowFrom(columns: map<string, seq<Option<string>>>, prices: seq<int>, i: nat): Product
    requires i < |prices|
  {
    Product(
      Cell(columns, TextColumns[0], i),
      Cell(columns, TextColumns[1], i),
      Cell(columns, TextColumns[2], i),
      prices[i],
      Cell(columns, TextColumns[3], i),
      Cell(columns, TextColumns[4], i),
      Cell(columns, TextColumns[5], i))
  }

  /** Reading a row from normalised columns gives the normalised row of the raw table. */
  lemma RowFromNormalised(raw: RawFrame, columns: map<string, seq<Option<string>>>, prices: seq<int>, i: nat)
    requires WellFormed(raw) && i < raw.rowCount
    requires forall j :: 0 <= j < |TextColumns| ==> NormalisedColumn(raw, columns, TextColumns[j])
    requires |prices| == raw.rowCount && prices[i] == raw.price[i].GetOr(0)
    ensures RowFrom(columns, prices, i) == RowAt(raw, i)
  {
    assert NormalisedColumn(raw, columns, TextColumns[0]) && NormalisedColumn(raw, columns, TextColumns[1]);
    assert NormalisedColumn(raw, columns, TextColumns[2]) && NormalisedColumn(raw, columns, TextColumns[3]);
    assert NormalisedColumn(raw, columns, TextColumns[4]) && NormalisedColumn(raw, columns, TextColumns[5]);
  }

  /**
   * The loader: the price column becomes integers with 0 for a missing or
   * non-numeric cell, the text columns are normalised, and the result is
   * the table's rows as typed records, in file order.
   */
  method LoadProducts(raw: RawFrame) returns (products: seq<Product>)
    requires WellFormed(raw)
    ensures |products| == raw.rowCount
    ensures forall i :: 0 <= i < raw.rowCount ==> products[i] == RowAt(raw, i)
  {
    var prices := seq(raw.rowCount, i requires 0 <= i < raw.rowCount => raw.price[i].GetOr(0));
    var columns := FillTextColumns(raw);
    products := [];
    for i := 0 to raw.rowCount
      invariant |products| == i
      invariant forall j :: 0 <= j < i ==> products[j] == RowAt(raw, j)
    {
      RowFromNormalised(raw, columns, prices, i);
      products := products + [RowFrom(columns, prices, i)];
    }
  }
}
