/**
 * The per-session UI state of app.py (`st.session_state`): the selected
 * category and the index of the card whose detail panel is open, with the
 * writes made by `init_state`, by the category switcher, and by the
 * product grid, and the comparison that decides which cards draw their
 * detail panel.
 */
module Session {
  import opened Text
  import opened Catalog
  import opened Listing
  import opened Format

  /** One key of the session store: not yet written, or holding a value. */
  datatype Slot<T> = Absent | Present(value: T)

  /** A snapshot of the two keys the page uses. */
  datatype State = State(category: Slot<string>, productIdx: Slot<Option<nat>>)

  /** The category `init_state` picks when the category list is empty. */
  const Fallback: string := "全て"

  /**
   * `init_state`: each key is written only when it is absent. Afterwards
   * both keys are present; a key that was present keeps its value, and an
   * absent index becomes None.
   */
  function Initialized(s: State, categories: seq<string>): (r: State)
    ensures r.category.Present? && r.productIdx.Present?
    ensures s.category.Present? ==> r.category == s.category
    ensures s.productIdx.Present? ==> r.productIdx == s.productIdx
    ensures s.productIdx.Absent? ==> r.productIdx == Present(None)
  {
    State(
      if s.category.Absent? then Present(if |categories| > 0 then categories[0] else Fallback) else s.category,
      if s.productIdx.Absent? then Present(None) else s.productIdx)
  }

  /** A category button was pressed: select it and close any detail panel, whatever was open before. */
  function CategoryClicked(s: State, category: string): (r: State)
    ensures r.category == Present(category) && r.productIdx == Present(None)
  {
    State(Present(category), Present(None))
  }

  /** The detail button of card `i` was pressed: the index is stored, the category is kept. */
  function DetailClicked(s: State, i: nat): (r: State)
    ensures r.productIdx == Present(Some(i)) && r.category == s.category
  {
    s.(productIdx := Present(Some(i)))
  }

  /** Initialising again, with any category list, changes nothing. */
  lemma InitIdempotent(s: State, categories: seq<string>, later: seq<string>)
    ensures Initialized(Initialized(s, categories), later) == Initialized(s, categories)
  {
  }

  /**
   * On a fresh session the page selects the sentinel: the category list is
   * never empty and starts with it, so the fallback is never chosen.
   */
  lemma InitSelectsAllProducts(catalog: seq<Product>)
    ensures Initialized(State(Absent, Absent), CategoryList(catalog))
         == State(Present(AllProducts), Present(None))
  {
    CategoryListShape(catalog);
  }

  /** A category click selects that category, closes the panel, and so shows that category's rows. */
  lemma CategoryClickShowsCategory(catalog: seq<Product>, s: State, category: string)
    requires category != AllProducts && category != ""
    ensures CategoryClicked(s, category).productIdx == Present(None)
    ensures forall p :: multiset(Query(catalog, CategoryClicked(s, category).category.value, ""))[p] ==
                        if p.category == category then multiset(catalog)[p] else 0
  {
    QueryCategory(catalog, category);
  }

  /**
   * The index card `i` is compared with while the grid is drawn: a click on
   * card `c` is stored when that card is drawn, so cards before it still see
   * the index of the previous pass.
   */
  function IdxWhenDrawn(before: Slot<Option<nat>>, click: Option<nat>, i: nat): Slot<Option<nat>> {
    if click.Some? && click.value <= i then Present(click) else before
  }

  /**
   * The cards among the first `n` that draw their detail panel, as the grid
   * is written: the clicked card, if it is among them, and the card stored
   * before, if it is among them and no click at or above it moved the index.
   * So up to two panels can open in one pass.
   */
  function OpenPanelsAsWritten(before: Slot<Option<nat>>, click: Option<nat>, n: nat): (r: seq<nat>)
    ensures |r| ==
      (if click.Some? && click.value < n then 1 else 0)
      + (if before.Present? && before.value.Some? && before.value.value < n
            && !(click.Some? && click.value <= before.value.value) then 1 else 0)
  {
    if n == 0 then []
    else
      OpenPanelsAsWritten(before, click, n - 1)
      + (if IdxWhenDrawn(before, click, n - 1) == Present(Some(n - 1)) then [n - 1] else [])
  }

  /** The cards among the first `n` whose index equals the stored one. */
  function OpenPanels(idx: Slot<Option<nat>>, n: nat): seq<nat> {
    if n == 0 then []
    else OpenPanels(idx, n - 1) + (if idx == Present(Some(n - 1)) then [n - 1] else [])
  }

  /** Exactly the card at the stored index draws its panel, and no other. */
  lemma {:induction false} OpenPanelsAtMostOne(idx: Slot<Option<nat>>, n: nat)
    ensures |OpenPanels(idx, n)| == if idx.Present? && idx.value.Some? && idx.value.value < n then 1 else 0
    ensures forall i :: i in OpenPanels(idx, n) <==> i < n && idx == Present(Some(i))
  {
    if n > 0 {
      OpenPanelsAtMostOne(idx, n - 1);
    }
  }

  /**
   * As written, a card draws its panel when it is the clicked card, or when
   * it held the panel before and no click at or before it has moved the
   * index.
   */
  lemma {:induction false} OpenPanelsAsWrittenMembers(before: Slot<Option<nat>>, click: Option<nat>, n: nat)
    ensures forall i :: i in OpenPanelsAsWritten(before, click, n) <==>
      i < n && (click == Some(i) || (before == Present(Some(i)) && !(click.Some? && click.value <= i)))
  {
    if n > 0 {
      OpenPanelsAsWrittenMembers(before, click, n - 1);
    }
  }

  /** A pass in which no detail button was pressed opens exactly the stored card. */
  lemma {:induction false} NoClickOpensStored(before: Slot<Option<nat>>, n: nat)
    ensures OpenPanelsAsWritten(before, None, n) == OpenPanels(before, n)
  {
    if n > 0 {
      NoClickOpensStored(before, n - 1);
    }
  }

  /** After a category click no card draws its panel. */
  lemma CategoryClickClosesPanels(s: State, category: string, n: nat)
    ensures OpenPanels(CategoryClicked(s, category).productIdx, n) == []
  {
    OpenPanelsAtMostOne(CategoryClicked(s, category).productIdx, n);
  }

  /** After a detail click on card `i`, card `i` and only it draws its panel. */
  lemma DetailClickOpensOne(s: State, i: nat, n: nat)
    requires i < n
    ensures OpenPanels(DetailClicked(s, i).productIdx, n) == [i]
  {
    var panels := OpenPanels(DetailClicked(s, i).productIdx, n);
    OpenPanelsAtMostOne(DetailClicked(s, i).productIdx, n);
    assert i in panels;
  }

  /**
   * As written, at most two panels open in one pass, and two open exactly
   * when a card is clicked below the card that was open before.
   */
  lemma OpenPanelsAsWrittenTwo(before: Slot<Option<nat>>, click: Option<nat>, n: nat)
    ensures |OpenPanelsAsWritten(before, click, n)| <= 2
    ensures |OpenPanelsAsWritten(before, click, n)| == 2 <==>
      click.Some? && click.value < n && before.Present? && before.value.Some? && before.value.value < click.value
  {
  }

  /**
   * The grid as written draws two panels in the pass of a click on a card
   * below the one already open: card 1 was open, card 3 is clicked.
   */
  lemma TwoPanelsAsWritten()
    ensures OpenPanelsAsWritten(Present(Some(1)), Some(3), 5) == [1, 3]
  {
    OpenPanelsAsWrittenMembers(Present(Some(1)), Some(3), 5);
    assert OpenPanelsAsWritten(Present(Some(1)), Some(3), 2) == [1];
  }

  /**
   * The state after one pass: `init_state`, then the category press (if
   * any), then the detail press (if any). A pressed category becomes the
   * selection; a detail press stores its card; a category press alone
   * closes the panel.
   */
  function PassState(s: State, categories: seq<string>, categoryClick: Option<nat>, detailClick: Option<nat>): (r: State)
    requires categoryClick.Some? ==> categoryClick.value < |categories|
    ensures r.category.Present? && r.productIdx.Present?
    ensures categoryClick.Some? ==> r.category == Present(categories[categoryClick.value])
    ensures categoryClick.None? ==> r.category == Initialized(s, categories).category
    ensures detailClick.Some? ==> r.productIdx == Present(detailClick)
    ensures detailClick.None? && categoryClick.Some? ==> r.productIdx == Present(None)
    ensures detailClick.None? && categoryClick.None? ==> r == Initialized(s, categories)
  {
    var initialized := Initialized(s, categories);
    var switched := if categoryClick.Some? then CategoryClicked(initialized, categories[categoryClick.value]) else initialized;
    if detailClick.Some? then DetailClicked(switched, detailClick.value) else switched
  }

  /**
   * A pass with no press, such as one caused by typing a new search, keeps
   * the stored index: the card at that position of the new list, if there is
   * one, draws its panel, whichever product it now shows.
   */
  lemma NoPressKeepsPanel(s: State, categories: seq<string>, i: nat, n: nat)
    requires s.productIdx == Present(Some(i)) && i < n
    ensures PassState(s, categories, None, None).productIdx == Present(Some(i))
    ensures OpenPanels(PassState(s, categories, None, None).productIdx, n) == [i]
  {
    var idx := PassState(s, categories, None, None).productIdx;
    OpenPanelsAtMostOne(idx, n);
    assert i in OpenPanels(idx, n);
  }

  /** The session store of one user. */
  class SessionStore {
    var selectedCategory: Slot<string>
    var selectedProductIdx: Slot<Option<nat>>

    function Snapshot(): State
      reads this
    {
      State(selectedCategory, selectedProductIdx)
    }

    /** A new session: neither key has been written. */
    constructor ()
      ensures Snapshot() == State(Absent, Absent)
    {
      selectedCategory := Absent;
      selectedProductIdx := Absent;
    }

    /** `init_state`. */
    method InitState(categories: seq<string>)
      modifies this
      ensures Snapshot() == Initialized(old(Snapshot()), categories)
    {
      if selectedCategory.Absent? {
        selectedCategory := Present(if |categories| > 0 then categories[0] else Fallback);
      }
      if selectedProductIdx.Absent? {
        selectedProductIdx := Present(None);
      }
    }

    /**
     * `render_category_switch`: one button per category; the pressed one
     * (if any) selects its category and closes the detail panel.
     */
    method RenderCategorySwitch(categories: seq<string>, click: Option<nat>)
      requires click.Some? ==> click.value < |categories|
      modifies this
      ensures Snapshot() ==
        if click.Some? then CategoryClicked(old(Snapshot()), categories[click.value]) else old(Snapshot())
    {
      for i := 0 to |categories|
        invariant Snapshot() ==
          if click.Some? && click.value < i then CategoryClicked(old(Snapshot()), categories[click.value])
          else old(Snapshot())
      {
        if click == Some(i) {
          selectedCategory := Present(categories[i]);
          selectedProductIdx := Present(None);
        }
      }
    }

    /**
     * `render_product_grid` as written: for each card in order, a press of
     * its detail button stores its index, and then the card draws its panel
     * when the stored index equals its own.
     */
    method RenderProductGrid(rows: seq<Product>, click: Option<nat>) returns (cards: seq<Card>, panels: seq<nat>)
      requires click.Some? ==> click.value < |rows|
      modifies this
      ensures cards == Cards(rows)
      ensures panels == OpenPanelsAsWritten(old(selectedProductIdx), click, |rows|)
      ensures Snapshot() == if click.Some? then DetailClicked(old(Snapshot()), click.value) else old(Snapshot())
    {
      cards, panels := Cards(rows), [];
      if |rows| == 0 {
        return;
      }
      for i := 0 to |rows|
        invariant panels == OpenPanelsAsWritten(old(selectedProductIdx), click, i)
        invariant selectedCategory == old(selectedCategory)
        invariant selectedProductIdx ==
          if click.Some? && click.value < i then Present(click) else old(selectedProductIdx)
      {
        if click == Some(i) {
          selectedProductIdx := Present(Some(i));
        }
        if selectedProductIdx == Present(Some(i)) {
          panels := panels + [i];
        }
      }
    }

    /**
     * The grid with the press applied before any card is compared, so that
     * exactly the pressed (or else the stored) card draws its panel.
     */
    method RenderProductGridOnePanel(rows: seq<Product>, click: Option<nat>) returns (cards: seq<Card>, panels: seq<nat>)
      requires click.Some? ==> click.value < |rows|
      modifies this
      ensures cards == Cards(rows)
      ensures panels == OpenPanels(selectedProductIdx, |rows|)
      ensures Snapshot() == if click.Some? then DetailClicked(old(Snapshot()), click.value) else old(Snapshot())
    {
      cards, panels := Cards(rows), [];
      if |rows| == 0 {
        return;
      }
      if click.Some? {
        selectedProductIdx := Present(click);
      }
      ghost var pressed := Snapshot();
      for i := 0 to |rows|
        invariant Snapshot() == pressed
        invariant panels == OpenPanels(selectedProductIdx, i)
      {
        if selectedProductIdx == Present(Some(i)) {
          panels := panels + [i];
        }
      }
    }

    /**
     * One pass of `main` after the catalog is loaded: derive the category
     * list, initialise the state, apply a category press, trim the search
     * text, query, and draw the grid (with the one-panel grid).
     */
    method RenderPass(catalog: seq<Product>, categoryClick: Option<nat>, searchBox: string, detailClick: Option<nat>)
      returns (shown: seq<Product>, cards: seq<Card>, panels: seq<nat>)
      requires categoryClick.Some? ==> categoryClick.value < |CategoryList(catalog)|
      requires detailClick.Some? ==>
        var s := Initialized(Snapshot(), CategoryList(catalog));
        var selected := if categoryClick.Some? then CategoryList(catalog)[categoryClick.value] else s.category.value;
        detailClick.value < |Query(catalog, selected, Strip(searchBox))|
      modifies this
      ensures Snapshot() == PassState(old(Snapshot()), CategoryList(catalog), categoryClick, detailClick)
      ensures selectedCategory.Present?
      ensures shown == Query(catalog, selectedCategory.value, Strip(searchBox))
      ensures cards == Cards(shown)
      ensures panels == OpenPanels(selectedProductIdx, |shown|) && |panels| <= 1
    {
      var categories := CategoryList(catalog);
      InitState(categories);
      RenderCategorySwitch(categories, categoryClick);
      var query := Strip(searchBox);
      shown := Query(catalog, selectedCategory.value, query);
      cards, panels := RenderProductGridOnePanel(shown, detailClick);
      OpenPanelsAtMostOne(selectedProductIdx, |shown|);
    }

    /**
     * The same pass with the grid as written: the panels are compared with
     * the index as it stands when each card is drawn, so up to two open.
     */
    method RenderPassAsWritten(catalog: seq<Product>, categoryClick: Option<nat>, searchBox: string, detailClick: Option<nat>)
      returns (shown: seq<Product>, cards: seq<Card>, panels: seq<nat>)
      requires categoryClick.Some? ==> categoryClick.value < |CategoryList(catalog)|
      requires detailClick.Some? ==>
        var s := Initialized(Snapshot(), CategoryList(catalog));
        var selected := if categoryClick.Some? then CategoryList(catalog)[categoryClick.value] else s.category.value;
        detailClick.value < |Query(catalog, selected, Strip(searchBox))|
      modifies this
      ensures Snapshot() == PassState(old(Snapshot()), CategoryList(catalog), categoryClick, detailClick)
      ensures selectedCategory.Present?
      ensures shown == Query(catalog, selectedCategory.value, Strip(searchBox))
      ensures cards == Cards(shown)
      ensures panels == OpenPanelsAsWritten(
        PassState(old(Snapshot()), CategoryList(catalog), categoryClick, None).productIdx, detailClick, |shown|)
      ensures |panels| <= 2
    {
      var categories := CategoryList(catalog);
      InitState(categories);
      RenderCategorySwitch(categories, categoryClick);
      var query := Strip(searchBox);
      shown := Query(catalog, selectedCategory.value, query);
      ghost var before := selectedProductIdx;
      assert before == PassState(old(Snapshot()), categories, categoryClick, None).productIdx;
      cards, panels := RenderProductGrid(shown, detailClick);
      OpenPanelsAsWrittenTwo(before, detailClick, |shown|);
    }
  }
}
