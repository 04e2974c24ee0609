# Inventory store: a Dafny model

This project models the in-memory inventory store of `InventoryManagementSystem`. That is a
console program that keeps a list of inventory records, each with a name, a code, a quantity
and a price. The user can add, delete, update, list, save and load records. The model covers
the list and the operations the menu applies to it:

- `Items`: the record (`InventoryItem`) as a datatype. Its constructor `Item` stands for the
  Java constructor, the field `code` stands for `getCode`, and `WithQuantity` stands for
  `setQuantity`. Quantities are 32-bit, like Java's `int`. The price is kept as the 64 raw
  bits of the Java `double` and is only carried along.
- `Records`: the list as a `seq<Item>`. It defines the unique-code invariant, the "first
  record with this code" search, and reference definitions of deletion (`RemoveFirst`) and of
  the quantity update (`SetFirstQuantity`), with lemmas about each of them.
- `Prompts`: the two input retry loops. One asks again while a code is already taken. The
  other asks again while a quantity is negative. The input to these two prompts is a finite
  sequence of entries, and running out of entries stands for the Scanner failing. That
  abandons the flow. Every other prompt (name, price, the code to delete or update, the
  file name) receives its value as a plain parameter, so input never runs out there.
- `FileNames`: the rule that appends `.dat` when the name does not already end with it.
- `InventoryStore`: the class `Inventory`, whose field `items` is the program's static
  `ArrayList`. It has one method per menu flow. `IsCodeExists`, `ReadFreshCode`, `AddItem`,
  `Delete` and `UpdateQuantity` are proved against the `Records` and `Prompts` functions.
  `Save` and `Load` are proved against `Normalize` and the map of saved files. `DisplayAll`
  states its rows directly in terms of `items`.
- `Scenarios`: sessions that chain flows. They show two adds and a listing, a re-prompted
  duplicate code, input running out at the code prompt, save followed by load, and a delete
  after loading duplicates.

The program never checks the unique-code invariant after a load, which replaces the list
wholesale. So the invariant is not a class invariant here. Instead, add, delete and update
each preserve it, and load does not claim it.

Three behaviours of the program that the model keeps:

- A duplicate code in the add flow is not an error. The program asks for another code.
- Delete and update on a missing code print a message and leave the store unchanged.
- A failing load reports the error and keeps the current list.

## Model

| member | source | states |
|---|---|---|
| `Items.Item.WithQuantity` | InventoryManagementSystem.java:23-25 | the new quantity is stored; name, code and price are kept |
| `FileNames.Normalize` | InventoryManagementSystem.java:211-213 | the result always ends in ".dat"; a name already ending in ".dat" is returned unchanged; otherwise ".dat" is appended exactly once; the input is a prefix of the result |
| `FileNames.NormalizeIdempotent` | InventoryManagementSystem.java:230-232 | normalising twice gives the same file name as normalising once |
| `FileNames.SameFileWithOrWithoutExtension` | InventoryManagementSystem.java:230-232 | "x" and "x.dat" name the same file when "x" lacks the extension |
| `Records.FirstIndex` | InventoryManagementSystem.java:151-152 | none exactly when no record has the code; otherwise a valid position holding the code, with no earlier record holding it |
| `Records.FirstIndexIsOnly` | InventoryManagementSystem.java:151-157 | under unique codes, any record holding the code is the first match |
| `Records.RemoveFirstAt` | InventoryManagementSystem.java:151-157 | the reference definition of deletion, `RemoveFirst`, removes exactly the first matching record (`s[..k] + s[k+1..]`) and keeps the others in order; an absent code leaves the list unchanged |
| `Records.RemoveFirstAtIndex` | InventoryManagementSystem.java:151-157 | given the position of the first match, deletion equals cutting out exactly that record |
| `Records.RemoveFirstAbsent` | InventoryManagementSystem.java:150-162 | when no record carries the code, deletion changes nothing |
| `Records.CutKeepsUnique` | InventoryManagementSystem.java:153 | cutting one record out of a list with unique codes keeps codes unique, removes that record's code, and keeps every other code's presence |
| `Records.RemoveFirstLeavesLaterDuplicate` | InventoryManagementSystem.java:151-157 | when two records share a code, the list does not have unique codes; deletion removes one record only and the code is still present |
| `Records.RemoveFirstSize` | InventoryManagementSystem.java:150-162 | deleting a present code shrinks the list by one; an absent code changes nothing |
| `Records.RemoveFirstKeepsUnique` | InventoryManagementSystem.java:151-157 | under unique codes, deletion keeps codes unique, removes the code entirely, and leaves the presence of every other code unchanged |
| `Records.SetFirstQuantityAt` | InventoryManagementSystem.java:175-188 | the reference definition of the update, `SetFirstQuantity`, rewrites only the first matching record, in place (`s[k := s[k].WithQuantity(q)]`); an absent code leaves the list unchanged |
| `Records.SetFirstQuantityAtIndex` | InventoryManagementSystem.java:175-188 | given the position of the first match, the update rewrites only that record's quantity |
| `Records.SetFirstQuantityAbsent` | InventoryManagementSystem.java:174-193 | when no record carries the code, the update changes nothing |
| `Records.SetFirstQuantityKeeps` | InventoryManagementSystem.java:175-188 | the update keeps the length, every name, code and price, and every record except the first match; the match gets the new quantity; unique codes and the set of codes are preserved |
| `Prompts.FirstNonNegative` | InventoryManagementSystem.java:113-117 | the accepted quantity is non-negative, is one of the entries, and every earlier entry was negative; none exactly when every entry is negative |
| `Prompts.FirstFresh` | InventoryManagementSystem.java:105-111 | the accepted code is held by no record, is one of the entries, and every earlier entry was taken; none exactly when every entry is taken |
| `Prompts.ReadNonNegative` | InventoryManagementSystem.java:179-182 | the quantity prompt loop returns the first non-negative entry, or none when every entry is negative |
| `InventoryStore.Inventory.constructor` | InventoryManagementSystem.java:37 | a new store is empty |
| `InventoryStore.Inventory.IsCodeExists` | InventoryManagementSystem.java:132-139 | true exactly when some record holds the code (`Records.HasCode`) |
| `InventoryStore.Inventory.ReadFreshCode` | InventoryManagementSystem.java:103-111 | the code prompt loop returns the first entry not yet in use, or none |
| `InventoryStore.Inventory.AddItem` | InventoryManagementSystem.java:98-130 | appends exactly one record when a fresh code and a non-negative quantity were entered, and leaves the others in order; the new record is last, has an absent code and a non-negative quantity; otherwise the store is unchanged; unique codes are preserved |
| `InventoryStore.Inventory.Delete` | InventoryManagementSystem.java:141-163 | reports an empty store, a deletion, or a missing code; the new list is `RemoveFirst` of the old one; unique codes are preserved and the code is then gone |
| `InventoryStore.Inventory.UpdateQuantity` | InventoryManagementSystem.java:165-194 | reports an empty store, a missing code, an abandoned prompt, or the non-negative quantity stored; the new list is `SetFirstQuantity` of the old one on success and unchanged otherwise; unique codes are preserved |
| `InventoryStore.Inventory.DisplayAll` | InventoryManagementSystem.java:196-206 | a message exactly when the store is empty; otherwise one row per record, in insertion order, row k numbered k+1 |
| `InventoryStore.Inventory.Save` | InventoryManagementSystem.java:208-224 | the file under the normalised name now holds the list; every other file is unchanged |
| `InventoryStore.Inventory.Load` | InventoryManagementSystem.java:226-247 | when the normalised file exists, the list becomes its contents, with no uniqueness check; otherwise the store is unchanged and the result is "file not found" |
| `Scenarios.TwoAddsThenDisplay` | InventoryManagementSystem.java:203-205 | two adds with distinct codes, then a listing, give the two records numbered 1 and 2 in insertion order |
| `Scenarios.DuplicateCodeIsAskedAgain` | InventoryManagementSystem.java:105-117 | a taken code and a negative quantity are asked for again, and the add goes through with the first acceptable entries; the store then holds two records |
| `Scenarios.InputRunsOutAtCodePrompt` | InventoryManagementSystem.java:105-111 | when every code typed is taken and the input runs out, the add is abandoned and the store keeps its one record |
| `Scenarios.SaveThenLoad` | InventoryManagementSystem.java:208-247 | saving and then loading under names that normalise alike restores the saved list exactly |
| `Scenarios.DeleteAfterDuplicateLoad` | InventoryManagementSystem.java:236 | a load of a list where two records share a code succeeds; deleting that code then reports a deletion, shrinks the store by one, and the code is still present |

## Left out

- The menu loop, the menu text, the "Press Enter" pause and every console print are not
  modelled (`main`, `displayMenu`, lines 40-96). The outcome datatypes stand for the messages.
- Line parsing is not modelled (`getStringInput`, `getIntInput`, `getDoubleInput`, lines
  249-276). The entries arrive already trimmed and parsed as 32-bit integers. A line that does
  not parse is simply re-prompted by the program, so it is not an entry here.
- The price retry loop (`price < 0`, lines 119-123) compares a floating-point number, so it is
  not modelled. `AddItem` receives the price that loop accepted.
- `InventoryItem.toString` (lines 27-33) is not modelled, because it formats the price with
  `String.format("%.2f")`. The listing gives the numbered records, not their text.
- Java object serialisation is not modelled. Saved files are a map from normalised name to
  the saved list, and the model assumes that writing an object and reading it back gives the
  same list.
- `InventoryStore.Inventory.Save`: an `IOException` while writing (lines 221-223) is not
  modelled; the file is always written.
- `InventoryStore.Inventory.Load`: of the read failures (lines 240-246), only a missing file
  is modelled; read and class errors are not. Neither is a `ClassCastException` from the
  unchecked cast at line 236, which no handler of the load flow catches, so it reaches the
  catch-all of the menu loop (lines 74-76). All of these leave the store unchanged, as a
  missing file does, except an `IOException` while closing the streams (lines 237-238). That
  comes after line 236 has already replaced the list, so the program reports a read error
  while holding the loaded list. The model has no such outcome.
- `InventoryStore.Inventory.Load`: a loaded list is taken to hold distinct, non-null records
  whose fields are not null. Java deserialisation (line 236) can restore a list in which one
  record object stands at several positions. An update of its code (line 184) would then
  change every one of those positions, while the model changes only the first. A `null`
  element or a `null` code would make `getCode()` throw a `NullPointerException` in add,
  delete and update (lines 134, 152, 176). Neither case is modelled, because a `seq<Item>`
  holds separate values and no nulls. The program never writes such a file itself.
- `InventoryStore.Inventory.Save` and `InventoryStore.Inventory.Load`: file names are
  compared as exact strings after the ".dat" rule. Path resolution by the file system is not
  modelled. So names that open the same file, such as "x" and "./x", or "X" and "x" on a
  case-insensitive file system, are different files in the model. Save's "every other file
  is unchanged" and the save-then-load round trip hold under this exact-name view.
- Records are values, so `setQuantity` on the object the list refers to becomes replacing
  that record in the sequence. In a list the program builds itself through add, each record
  is a fresh object held at one position and nowhere else, so this aliasing is not
  observable. Loaded lists are covered by the `Load` line above.
- The catch-all handlers (lines 74-76 and 127-129) are modelled only for input running out
  at the code and quantity prompts (`AddAborted`, `UpdateAborted`). Apart from the load
  failures and the nulls of a loaded list described above, nothing else in the store logic
  throws. Once the input has run
  out, the "Press Enter" pause at line 81, which is outside any `try`, fails as well and
  ends the program. So in the program an abandoned add or update is always the end of the
  session; the model stops at the abandoned flow.
