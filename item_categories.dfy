/** The item categorisation step of TFT_Item_CurrentVersion.py: every row of the item
    table gets an `item_type` label ('component' or 'completed') and an `is_defensive`
    flag, both decided by exact membership of the row's `name` in a hand-written list. */
module ItemCategories {
  import opened Wrappers

  /** The two values the `item_type` column can hold. */
  datatype ItemType = Component | Completed

  /** One row of the item table. `name` is None where the CSV cell is empty (NaN).
      `itemType` and `isDefensive` are None while the table has no such column; once
      the categorisation has run they hold the derived labels. */
  datatype ItemRow = ItemRow(id: int, name: Option<string>, itemType: Option<ItemType>, isDefensive: Option<bool>)

  /** The nine basic items, spelled as the game spells them. */
  const ComponentItems: seq<string> := [
    "B.F. Sword", "Recurve Bow", "Needlessly Large Rod", "Tear of the Goddess",
    "Chain Vest", "Negatron Cloak", "Giant's Belt", "Spatula", "Sparring Gloves"
  ]

  /** The eleven items counted as defensive. */
  const DefensiveItems: seq<string> := [
    "Guardian Angel", "Titan's Resolve", "Locket of the Iron Solari", "Frozen Heart",
    "Redemption", "Warmog's Armor", "Trap Claw", "Bramble Vest", "Dragon's Claw",
    "Quicksilver", "Zephyr"
  ]

  // ---------------------------------------------------------------------------
  // Membership and the two per-name labels

  /** Python's `x in list` on a list of strings: a left-to-right scan comparing with
      `==`, so the match is exact (case, spaces and punctuation all count). */
  function InList(x: string, list: seq<string>): (b: bool)
    ensures b <==> x in list
  {
    if list == [] then false else list[0] == x || InList(x, list[1..])
  }

  /** `classify_item`: 'component' exactly when the name is one of `components`,
      'completed' for every other name, including a missing one. The second ensures
      states totality: every name not in the list gets 'completed'. */
  function ClassifyItem(name: Option<string>, components: seq<string>): (t: ItemType)
    ensures t == Component <==> name.Some? && name.value in components
    ensures t == Completed <==> !(name.Some? && name.value in components)
  {
    match name
    case None => Completed
    case Some(n) => if InList(n, components) then Component else Completed
  }

  /** `Series.isin(defensive)` for one cell: true exactly when the name is one of
      `defensive`; a missing name is never defensive. */
  function IsDefensive(name: Option<string>, defensive: seq<string>): (b: bool)
    ensures b <==> name.Some? && name.value in defensive
  {
    match name
    case None => false
    case Some(n) => InList(n, defensive)
  }

  // ---------------------------------------------------------------------------
  // The two column assignments, as functions on the whole table

  /** `df['item_type'] = df['name'].apply(classify_item)`: every row keeps its place,
      `id`, `name` and `is_defensive`, and gets the label of its own name. */
  function ItemTypeColumn(rows: seq<ItemRow>, components: seq<string>): (out: seq<ItemRow>)
    ensures |out| == |rows|
    ensures forall i :: 0 <= i < |rows| ==>
      out[i].id == rows[i].id && out[i].name == rows[i].name &&
      out[i].isDefensive == rows[i].isDefensive &&
      out[i].itemType == Some(ClassifyItem(rows[i].name, components))
  {
    if rows == [] then []
    else [rows[0].(itemType := Some(ClassifyItem(rows[0].name, components)))]
         + ItemTypeColumn(rows[1..], components)
  }

  /** `df['is_defensive'] = df['name'].isin(defensive)`: every row keeps its place,
      `id`, `name` and `item_type`, and gets the flag of its own name. */
  function IsDefensiveColumn(rows: seq<ItemRow>, defensive: seq<string>): (out: seq<ItemRow>)
    ensures |out| == |rows|
    ensures forall i :: 0 <= i < |rows| ==>
      out[i].id == rows[i].id && out[i].name == rows[i].name &&
      out[i].itemType == rows[i].itemType &&
      out[i].isDefensive == Some(IsDefensive(rows[i].name, defensive))
  {
    if rows == [] then []
    else [rows[0].(isDefensive := Some(IsDefensive(rows[0].name, defensive)))]
         + IsDefensiveColumn(rows[1..], defensive)
  }

  /** The whole script on an in-memory table: first the `item_type` column, then the
      `is_defensive` column, with the lists as configured. Same rows in the same
      order, `id` and `name` untouched, both labels those of the row's own name. */
  function Categorise(rows: seq<ItemRow>, components: seq<string>, defensive: seq<string>): (out: seq<ItemRow>)
    ensures |out| == |rows|
    ensures forall i :: 0 <= i < |rows| ==>
      out[i].id == rows[i].id && out[i].name == rows[i].name &&
      (out[i].itemType == Some(Component) <==> rows[i].name.Some? && rows[i].name.value in components) &&
      (out[i].itemType == Some(Completed) <==> !(rows[i].name.Some? && rows[i].name.value in components)) &&
      (out[i].isDefensive == Some(true) <==> rows[i].name.Some? && rows[i].name.value in defensive) &&
      (out[i].isDefensive == Some(false) <==> !(rows[i].name.Some? && rows[i].name.value in defensive))
  {
    IsDefensiveColumn(ItemTypeColumn(rows, components), defensive)
  }

  // ---------------------------------------------------------------------------
  // The in-place updates of the script

  /** Line 29 of the script, done in place on the table's rows. */
  method AssignItemType(table: array<ItemRow>, components: seq<string>)
    modifies table
    ensures table[..] == ItemTypeColumn(old(table[..]), components)
  {
    var i := 0;
    while i < table.Length
      invariant 0 <= i <= table.Length
      invariant forall k :: 0 <= k < i ==>
        table[k] == old(table[k]).(itemType := Some(ClassifyItem(old(table[k]).name, components)))
      invariant forall k :: i <= k < table.Length ==> table[k] == old(table[k])
    {
      table[i] := table[i].(itemType := Some(ClassifyItem(table[i].name, components)));
      i := i + 1;
    }
  }

  /** Line 51 of the script, done in place on the table's rows. */
  method AssignIsDefensive(table: array<ItemRow>, defensive: seq<string>)
    modifies table
    ensures table[..] == IsDefensiveColumn(old(table[..]), defensive)
  {
    var i := 0;
    while i < table.Length
      invariant 0 <= i <= table.Length
      invariant forall k :: 0 <= k < i ==>
        table[k] == old(table[k]).(isDefensive := Some(IsDefensive(old(table[k]).name, defensive)))
      invariant forall k :: i <= k < table.Length ==> table[k] == old(table[k])
    {
      table[i] := table[i].(isDefensive := Some(IsDefensive(table[i].name, defensive)));
      i := i + 1;
    }
  }

  /** The script between loading and saving: both columns written, with the
      hard-coded lists. */
  method CategoriseItems(table: array<ItemRow>)
    modifies table
    ensures table[..] == Categorise(old(table[..]), ComponentItems, DefensiveItems)
  {
    AssignItemType(table, ComponentItems);
    AssignIsDefensive(table, DefensiveItems);
  }

  // ---------------------------------------------------------------------------
  // Properties of the categorisation

  /** Both labels are functions of the name alone: two rows with the same name,
      anywhere in the table, get the same `item_type` and `is_defensive`. */
  lemma SameNameSameLabels(rows: seq<ItemRow>, components: seq<string>, defensive: seq<string>, i: nat, j: nat)
    requires i < |rows| && j < |rows| && rows[i].name == rows[j].name
    ensures Categorise(rows, components, defensive)[i].itemType == Categorise(rows, components, defensive)[j].itemType
    ensures Categorise(rows, components, defensive)[i].isDefensive == Categorise(rows, components, defensive)[j].isDefensive
  {
  }

  /** The categorisation is an element-wise map: a row's result does not depend on
      the rows around it, so categorising two tables and concatenating them is the
      same as categorising their concatenation. */
  lemma CategoriseDistributes(xs: seq<ItemRow>, ys: seq<ItemRow>, components: seq<string>, defensive: seq<string>)
    ensures Categorise(xs + ys, components, defensive)
         == Categorise(xs, components, defensive) + Categorise(ys, components, defensive)
  {
  }

  /** Running the categorisation on an already categorised table recomputes the same
      labels from the same names and overwrites them with themselves. */
  lemma CategoriseIdempotent(rows: seq<ItemRow>, components: seq<string>, defensive: seq<string>)
    ensures Categorise(Categorise(rows, components, defensive), components, defensive)
         == Categorise(rows, components, defensive)
  {
  }

  /** A row whose name cell is missing is labelled 'completed' and not defensive. */
  lemma MissingNameLabels(components: seq<string>, defensive: seq<string>)
    ensures ClassifyItem(None, components) == Completed
    ensures !IsDefensive(None, defensive)
  {
  }

  /** With the lists as written no item is both a component and defensive. */
  lemma ComponentAndDefensiveDisjoint(name: string)
    ensures !(name in ComponentItems && name in DefensiveItems)
  {
  }

  /** Hence, with the lists as written, every defensive item is labelled 'completed'. */
  lemma DefensiveItemsAreCompleted(name: Option<string>)
    ensures IsDefensive(name, DefensiveItems) ==> ClassifyItem(name, ComponentItems) == Completed
  {
    if name.Some? {
      ComponentAndDefensiveDisjoint(name.value);
    }
  }

  /** Matching is exact string equality: the spelling in the list is recognised ... */
  lemma ExactNamesMatch()
    ensures IsDefensive(Some("Frozen Heart"), DefensiveItems)
    ensures ClassifyItem(Some("Chain Vest"), ComponentItems) == Component
  {
  }

  /** ... and a different case or spacing is a different name: "frozen heart" is
      neither defensive nor a component. */
  lemma LowerCaseNameDoesNotMatch()
    ensures !IsDefensive(Some("frozen heart"), DefensiveItems)
    ensures ClassifyItem(Some("frozen heart"), ComponentItems) == Completed
  {
    var x := "frozen heart";
    assert x[0] == 'f';
    forall i | 0 <= i < |DefensiveItems| ensures DefensiveItems[i] != x {
      assert 'A' <= DefensiveItems[i][0] <= 'Z';
    }
    forall i | 0 <= i < |ComponentItems| ensures ComponentItems[i] != x {
      assert 'A' <= ComponentItems[i][0] <= 'Z';
    }
  }
}
