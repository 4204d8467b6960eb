# TFT item categorisation

This project models the item categorisation step of a Teamfight Tactics data-wrangling
script, `TFT_Item_CurrentVersion.py`. The script loads an item table with `id` and `name`
columns and derives two new columns from each row's name:

- `item_type` is `'component'` when the name is one of nine hard-coded basic items, and
  `'completed'` for every other name (`classify_item`, applied with `Series.apply`).
- `is_defensive` is true when the name is one of eleven hard-coded defensive items
  (`Series.isin`).

In the model:

- The table is an `array<ItemRow>`.
- `ItemRow` carries `id`, `name` and the two derived columns.
- A name cell that pandas would read as NaN is `None`.
- A derived column is `None` until the script writes it. A stale value left by an
  earlier run is simply overwritten.
- `ItemType` has two values: `Component` and `Completed`.
- Python's `in` on a list is `InList`, a left-to-right scan that compares with `==`.
- Pandas' `isin` is modelled by the same membership, since only its observable effect
  matters.
- The two column assignments are in-place loops (`AssignItemType`, `AssignIsDefensive`).
  Each is proved equal to a function on the whole table (`ItemTypeColumn`,
  `IsDefensiveColumn`).
- `CategoriseItems` runs both assignments with the script's own lists. It is proved
  equal to `Categorise`, and the properties of the step are lemmas about `Categorise`.

The lists are the script's own hard-coded constants, `ComponentItems` and
`DefensiveItems`, spelled exactly as at TFT_Item_CurrentVersion.py:17-21 and :36-49.
The functions also take the lists as parameters, so the classification rule is stated
for any lists. The disjointness facts are proved for the lists as written. Assigning a
column keeps the table's rows in order, and the model states that order is kept.

## Model

| member | source | states |
|---|---|---|
| ItemCategories.InList | TFT_Item_CurrentVersion.py:25 | the left-to-right `==` scan behind Python's `in` is true exactly when the name is an element of the list |
| ItemCategories.ClassifyItem | TFT_Item_CurrentVersion.py:24-27 | the label is Component exactly when the name is present and a member of the component list, and Completed exactly otherwise (total, two labels only, missing name is Completed) |
| ItemCategories.IsDefensive | TFT_Item_CurrentVersion.py:51 | the flag is true exactly when the name is present and a member of the defensive list, false otherwise |
| ItemCategories.ItemTypeColumn | TFT_Item_CurrentVersion.py:29 | same number of rows, and each row keeps its id, name and is_defensive and gets item_type = the label of its own name |
| ItemCategories.IsDefensiveColumn | TFT_Item_CurrentVersion.py:51 | same number of rows, and each row keeps its id, name and item_type and gets is_defensive = the flag of its own name |
| ItemCategories.Categorise | TFT_Item_CurrentVersion.py:29-51 | after both assignments: same row count and order, id and name unchanged, item_type is 'component' iff the name is in the component list, is_defensive is true iff the name is in the defensive list |
| ItemCategories.AssignItemType | TFT_Item_CurrentVersion.py:29 | the in-place assignment leaves the table equal to ItemTypeColumn of the old table |
| ItemCategories.AssignIsDefensive | TFT_Item_CurrentVersion.py:51 | the in-place assignment leaves the table equal to IsDefensiveColumn of the old table |
| ItemCategories.CategoriseItems | TFT_Item_CurrentVersion.py:17-51 | running both assignments with the hard-coded lists leaves the table equal to Categorise of the old table |
| ItemCategories.SameNameSameLabels | TFT_Item_CurrentVersion.py:24-51 | two rows with the same name get the same item_type and is_defensive, wherever they are in the table |
| ItemCategories.CategoriseDistributes | TFT_Item_CurrentVersion.py:29-51 | categorisation is element-wise: categorising a concatenation equals concatenating the categorised parts |
| ItemCategories.CategoriseIdempotent | TFT_Item_CurrentVersion.py:29-51 | categorising an already categorised table gives back the same table |
| ItemCategories.MissingNameLabels | TFT_Item_CurrentVersion.py:24-27 | a missing name is labelled 'completed' and is not defensive |
| ItemCategories.ComponentAndDefensiveDisjoint | TFT_Item_CurrentVersion.py:17-49 | no name is in both hard-coded lists |
| ItemCategories.DefensiveItemsAreCompleted | TFT_Item_CurrentVersion.py:17-51 | with the hard-coded lists, every defensive item is labelled 'completed' |
| ItemCategories.ExactNamesMatch | TFT_Item_CurrentVersion.py:16-40 | the exact spellings "Frozen Heart" and "Chain Vest" are recognised as defensive and component |
| ItemCategories.LowerCaseNameDoesNotMatch | TFT_Item_CurrentVersion.py:35-51 | matching is case-sensitive: "frozen heart" is neither defensive nor a component |

## Left out

- Reading the table from CSV (`pd.read_csv`) and writing it back (`to_csv`). This is file I/O. The model starts from an in-memory array of rows and ends with the updated array.
- Tables without a `name` column: the script raises KeyError at :29. The model assumes the column exists.
- Columns of the CSV other than `id` and `name`. The assignments never touch them.
- `id` is modelled as an integer. The script never reads it, so its type does not matter.
- Names that pandas reads as non-string values, such as numbers. Only string names and missing names are modelled.
- The commented-out debug prints. They are console output only.
- How pandas `apply` and `isin` work internally, such as hashing and dtype handling. Only their element-wise effect is modelled.
- The other scripts of the repository: match flattening, joins against reference tables, and frequency counts. They are not part of this model.
