# CAGUUU sales-assist catalog browser — verified model

This project models the logic of `app.py`, a one-page in-store product browser. Staff pick a
category or type a search text. The page lists the matching products sorted by name. Each product
card can open one detail panel with the sales talking points and a link to the shop page.

The model covers these parts:

- **Loader** (`Catalog`). `load_products` turns a parsed CSV table into rows. A missing text
  column or a null text cell becomes `""`. A missing or non-numeric price becomes `0`. The method
  `LoadProducts` keeps the source's loop over the six text columns.
- **Category list and query** (`Listing`). The switcher lists the sentinel `全商品` first, then the
  distinct non-blank categories of the whole catalog in ascending order. The grid shows the
  masked catalog sorted by product name. A non-empty trimmed search text overrides the
  category and matches names case-insensitively. Otherwise `全商品` or `""` shows every row, and
  any other selection shows the rows of that category.
- **Formatting** (`Format`). `yen` gives `¥` plus digits grouped by commas, and a minus sign for
  negative values. The talking points get `<br>` in place of each literal `\n` pair and each real
  newline. The variation line appears only when it is not blank. The shop link appears only
  when the stripped `ec_url` is not empty.
- **Session state** (`Session`). `SessionStore` is a class with the two session keys.
  `init_state` fills only the keys that are absent. A category click selects that category and
  closes the detail panel. A detail click stores the card's position. Each card compares the
  stored index with its own position to decide whether to draw its panel.
- **Helpers** (`Text`, `Sequences`). These follow Python's string semantics: `str.strip()` with
  Python's white-space set, substring search, and code-point string order. `Sequences` has the
  mask filter and a sort by a string key.
- **Sample data** (`Sample`). These are the six rows of `data_generator.py` as the loader reads
  them back.

Where the code and the documented behaviour differ, the model follows the code:

- A new search does not clear the open-panel index. Only a category click does (app.py:146-147).
  The stored position can therefore point at another product after the list changes
  (`Session.NoPressKeepsPanel`).
- Prices are not clamped to be non-negative (app.py:112).
- `sort_values` is not promised to be stable, so the model claims only sortedness and permutation.
- Only the six text columns are created when missing. A missing `price` column is not created.

The catalog passed to the query is a value, so the query cannot change it. This matches
`df_all.copy()` at app.py:236.

## Model

| member | source | states |
|---|---|---|
| `Catalog.FillTextColumns` | app.py:113-116 | after the loop each of the six text columns exists, has one cell per row, and holds the file's string or `""` for a missing column or a null cell; every other column is unchanged, and no other column is added |
| `Catalog.FillNa` | app.py:117 | `fillna("")` leaves no null cell, and a cell that held a string keeps it |
| `Catalog.RowFromNormalised` | app.py:113-117 | reading row i from the normalised columns gives the normalised row of the raw table |
| `Catalog.LoadProducts` | app.py:107-118 | one row per table row in file order; each of the six text fields is the cell's string, or `""` when the column is missing or the cell is null; the price is the numeric value, or 0 when missing or non-numeric |
| `Format.Yen` | app.py:120-122 | the label has at least one character after `¥`, and that character is `-` exactly when the value is negative |
| `Format.YenSpec` | app.py:120-122 | the label starts with `¥`; for n ≥ 0 the rest has one comma per full group of three after the first, a comma exactly at the positions whose distance from the end is a multiple of four, and removing the commas leaves exactly the decimal digits of n, without leading zeros, which denote n; for n < 0 a `-` follows `¥` and the rest is the same for the magnitude |
| `Format.YenExamples` | app.py:120-122 | `yen(0) = "¥0"` and `yen(85000) = "¥85,000"` |
| `Format.GroupShape` | app.py:122 | grouping a digit string adds one comma per full group of three after the first; commas stand exactly every fourth place from the right; every other character is a digit |
| `Format.GroupRemoveCommas` | app.py:122 | removing the commas from the grouped digits gives back the digits |
| `Format.DigitsValue` | app.py:122 | the decimal digits of n denote n |
| `Format.SalesPointHtml` | app.py:191 | after the two `replace` calls no real newline is left in the talking points |
| `Format.ReplaceNewlineRemoves` | app.py:191 | replacing each real newline with `<br>` leaves no real newline, whatever the input |
| `Format.SalesPointHtmlBreaksLines` | app.py:191 | the two chained `replace` calls equal a one-pass conversion: each literal `\n` pair and each real newline becomes `<br>`, and every other character is kept |
| `Format.DetailOf` | app.py:187-203 | the panel shows the converted talking points; it offers a link (to the stripped address) exactly when `ec_url` holds a non-white-space character, and otherwise the warning |
| `Format.CardOf` | app.py:170-176 | the card shows the name and the `yen` price label; it shows the variation text exactly when that text holds a non-white-space character |
| `Text.Strip` | app.py:152 | the trimmed text is never longer than the input, and a text that neither starts nor ends with white space is kept as it is |
| `Text.StripSpec` | app.py:152 | the trimmed search text is a slice of the input; everything cut from either end is white space |
| `Text.StripEnds` | app.py:152 | the trimmed text neither starts nor ends with white space |
| `Text.StripEmptyIffBlank` | app.py:152 | the trimmed text is empty exactly when the input is all white space, so such input means "no search" |
| `Text.ContainsIffOccurs` | app.py:240 | the substring test holds exactly when the text occurs at some position |
| `Sequences.SortByCorrect` | app.py:250 | the sort returns the same elements, each as often, in ascending code-point order of the key |
| `Sequences.KeepCount` | app.py:240 | the mask keeps every occurrence of a selected row and no other row |
| `Listing.UniqueSpec` | app.py:221 | the distinct values hold every category of the column and no other value, and none of them twice |
| `Listing.CategoryList` | app.py:221-222 | the list starts with `全商品` and has one more entry than there are distinct non-blank categories |
| `Listing.CategoryListShape` | app.py:221-222 | the category list is never empty and starts with `全商品`; the rest is strictly ascending, so no value repeats; it holds exactly the catalog categories that are not all white space |
| `Listing.Query` | app.py:236-250 | the grid shows as many rows as the mask (`Listing.Selects`) keeps, never more than the catalog has |
| `Listing.QuerySortedPermutation` | app.py:239-250 | the shown rows are sorted by product name and are a permutation of the masked rows |
| `Listing.QueryCount` | app.py:239-250 | each row appears in the result as often as in the catalog when the mask selects it, and otherwise never |
| `Listing.QuerySearch` | app.py:239-240 | a non-empty search text yields exactly the catalog rows whose name contains it case-insensitively |
| `Listing.QuerySearchIgnoresCategory` | app.py:238-240 | with a non-empty search text, the result does not depend on the selected category |
| `Listing.QueryAll` | app.py:245-247 | with no search text, the selection `全商品` or `""` yields every catalog row |
| `Listing.QueryCategory` | app.py:245-247 | with no search text, any other selection yields exactly the rows whose category equals it |
| `Listing.QuerySearchIdempotent` | app.py:239-240 | searching the result of a search again with the same text gives the same rows |
| `Session.Initialized` | app.py:124-128 | after `init_state` both keys are present; a key that was present keeps its value; an absent index becomes None |
| `Session.InitIdempotent` | app.py:124-128 | a second `init_state`, with any category list, changes nothing |
| `Session.InitSelectsAllProducts` | app.py:124-126 | on a fresh session, with the list built from any catalog, `全商品` is selected; the `全て` fallback is never taken |
| `Session.CategoryClickShowsCategory` | app.py:145-147 | a category click closes the panel; with no search text the grid then shows exactly that category's rows |
| `Session.CategoryClicked` | app.py:145-147 | a category press selects that category and closes the panel, whatever the state before |
| `Session.DetailClicked` | app.py:178-179 | a detail press stores the card's index and keeps the selected category |
| `Session.CategoryClickClosesPanels` | app.py:146-147 | after a category click, no card draws its detail panel |
| `Session.DetailClickOpensOne` | app.py:178-183 | after a detail click on card i, card i and only card i draws its panel |
| `Session.OpenPanelsAtMostOne` | app.py:182-183 | comparing each card with one stored index opens at most one panel, the one at that index |
| `Session.OpenPanelsAsWritten` | app.py:162-183 | as written, the number of open panels is one for the clicked card if it is drawn, plus one for the previously open card if it is drawn and no click at or above it moved the index |
| `Session.OpenPanelsAsWrittenTwo` | app.py:162-183 | as written, at most two panels open in a pass, and two open exactly when a card below the previously open one is clicked |
| `Session.OpenPanelsAsWrittenMembers` | app.py:162-183 | in the grid as written, a card draws its panel when it was clicked, or when it held the panel before and no click at or above it moved the index |
| `Session.NoClickOpensStored` | app.py:162-183 | in a pass with no detail click, the grid as written opens exactly the stored card |
| `Session.TwoPanelsAsWritten` | app.py:178-183 | as written, with card 1 open and card 3 clicked, cards 1 and 3 both draw panels |
| `Session.SessionStore.InitState` | app.py:124-128 | the store after `init_state` is the initialised snapshot |
| `Session.SessionStore.RenderCategorySwitch` | app.py:135-147 | a press of button i selects category i and clears the index; with no press nothing changes |
| `Session.SessionStore.RenderProductGrid` | app.py:154-185 | one card per row in order (`Format.Cards`); the panels drawn are the as-written ones; a press stores the pressed index; the category is unchanged |
| `Session.SessionStore.RenderProductGridOnePanel` | app.py:178-183 | the corrected grid: same cards and state as the grid as written, but only the card at the stored index draws its panel |
| `Session.PassState` | app.py:124-183 | after `init_state`, a category press and a detail press, both keys are present; a pressed category becomes the selection, otherwise the initialised one stays; a detail press stores its card; a category press without one closes the panel; with no press at all the state is just the initialised one, so the stored index is kept |
| `Session.NoPressKeepsPanel` | app.py:124-183 | a pass with no press, such as one caused by a new search, keeps the stored index i, so card i of the new list draws its panel whatever product it now shows |
| `Session.SessionStore.RenderPass` | app.py:220-252 | the store ends in `Session.PassState` of the old one; the grid shows the query for the selection and the trimmed search text; the cards are `Format.Cards` of the shown rows; only the card at the stored index draws its panel, so at most one |
| `Session.SessionStore.RenderPassAsWritten` | app.py:220-252 | the same pass with the grid as written: same new store, rows and cards; the panels are the as-written ones for the index left by the category switch, so at most two |
| `Sample.GeneratedFrameLoads` | data_generator.py:11-60 | loading the generated file gives back the six sample rows with an empty variation text |
| `Sample.SampleCategories` | data_generator.py:11-60 | the switcher for the sample catalog reads `全商品, ソファ, テーブル, ベッド` |
| `Sample.SampleBeds` | data_generator.py:11-60 | the category `ベッド` shows its two beds, sorted by name |

## Findings

| source | as written | input that shows it | evidently intended | confidence | as-written member | corrected member |
|---|---|---|---|---|---|---|
| app.py:178-183 | Each card is compared with the stored index as it stands when that card is drawn. A press on a card is stored only when that card is reached. So the cards above the pressed one still see the previous index. | Card 1 is open from an earlier pass, and the detail button of card 3 is pressed. In that pass cards 1 and 3 both draw their detail panels. | Only the pressed card draws its panel ("詳細は押されたカードだけ展開"). | not executed; medium-high, based on Streamlit's rerun-on-click behaviour | `Session.SessionStore.RenderProductGrid`, `Session.OpenPanelsAsWrittenTwo`, `Session.TwoPanelsAsWritten` | `Session.SessionStore.RenderProductGridOnePanel`, `Session.OpenPanelsAtMostOne` |

`Session.SessionStore.RenderPass` uses the corrected grid; `Session.SessionStore.RenderPassAsWritten` is the
same pass with the grid as written.

## Left out

- Streamlit rendering is not modelled: CSS, markdown and HTML strings, emoji labels and the `✅`
  marker, `st.image`, columns, buttons as widgets, info, success and warning messages. A button
  press is an input (`Option<nat>`: the position of the pressed button, if any).
- Reading the CSV file (`pd.read_csv`) is not modelled. The loader takes the parsed table, with
  a null marker for every cell pandas reads as missing: empty cells and pandas' default missing
  markers such as `NA`, `N/A`, `NaN`, `None`, `null` and `nan`. All of these become `""`.
- The `FileNotFoundError` and generic error messages, and `st.stop()`, are not modelled. They are
  I/O control flow (app.py:211-218).
- Price cells are modelled as optional integers. Floats that `astype(int)` would truncate are not
  modelled.
- `Catalog.LoadProducts`: the price is an unbounded integer. `astype(int)` at app.py:112 gives a
  64-bit integer, so a value outside that range would wrap or raise in pandas. The model does not
  capture this.
- A table without a `price` column is not modelled. The loader leaves the column absent, and the
  later `int(row['price'])` would raise.
- The search is a literal substring test with ASCII case folding. Pandas' `str.contains`
  compiles the text as a regular expression with Unicode case-insensitive matching. Texts with
  regex metacharacters or non-ASCII case pairs (such as full-width letters) can match
  differently.
- `Listing.Query`: a search text that is not a valid regular expression, such as `(` or `*`,
  makes `str.contains` raise `re.error` at app.py:240. The program's pass then stops with an error.
  The model has no such error path; it matches such text literally.
- The order among rows with equal product names is the model's own, from a stable insertion sort.
  Pandas' default sort may order such ties differently, so no lemma claims more than sortedness
  and permutation.
- Negative prices are kept as they are. `yen` renders them as `¥-…`.
- If a row's category is literally `全商品`, the category list holds that value twice. Streamlit
  would then refuse two buttons with the same key. The model keeps the duplicate and does not
  model that error.
- The `if categories:` guard and its warning (app.py:227-230) are not modelled as a branch. The
  list is never empty (`Listing.CategoryListShape`).
- `Session.SessionStore.RenderProductGrid` and `Session.SessionStore.RenderProductGridOnePanel` build the
  cards as one sequence next to the loop, not one card per iteration. A card's content does not depend
  on the session state, so only the drawing order is not captured.
- `Session.SessionStore.RenderPass` composes the corrected one-panel grid, not the program's.
  `Session.SessionStore.RenderPassAsWritten` is the pass as the program runs it.
- `data_generator.py` writing the file is not modelled. Only its six rows are used, as constants.
