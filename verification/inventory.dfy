/**
 * The in-memory store of InventoryManagementSystem: the list of records that
 * the menu's add, delete, update, display, save and load entries act on.
 * Each method is one menu flow with its console input passed in as entries.
 */
module InventoryStore {
  import opened Wrappers
  import opened Items
  import opened Records
  import opened Prompts
  import opened FileNames

  /** Saved files, by (normalised) file name, each holding the list written to it. */
  type Files = map<string, seq<Item>>

  /** Add either appends the new record or is abandoned when the input runs out. */
  datatype AddOutcome = Added(item: Item) | AddAborted

  datatype DeleteOutcome = NoItemsToDelete | Deleted | DeleteNotFound

  /** Update reports the quantity it stored; `UpdateAborted` is input running out at the quantity prompt. */
  datatype UpdateOutcome = NoItemsToUpdate | Updated(quantity: int32) | UpdateNotFound | UpdateAborted

  /** What the display flow shows: a message for an empty store, or numbered rows. */
  datatype Listing = NoItemsToDisplay | Numbered(rows: seq<(nat, Item)>)

  datatype LoadOutcome = Loaded | FileNotFound

  class Inventory {
    /** The records, in insertion order. */
    var items: seq<Item>

    constructor ()
      ensures items == []
    {
      items := [];
    }

    /** `isCodeExists`: a scan that stops at the first record carrying `code`. */
    method IsCodeExists(code: string) returns (b: bool)
      ensures b <==> HasCode(items, code)
    {
      var i := 0;
      while i < |items|
        invariant 0 <= i <= |items|
        invariant forall j :: 0 <= j < i ==> items[j].code != code
      {
        if items[i].code == code {
          return true;
        }
        i := i + 1;
      }
      return false;
    }

    /** The code prompt of the add flow: asks again while the code entered is taken. */
    method ReadFreshCode(entries: seq<string>) returns (r: Option<string>)
      ensures r == FirstFresh(items, entries)
    {
      var i := 0;
      while i < |entries|
        invariant 0 <= i <= |entries|
        invariant FirstFresh(items, entries[i..]) == FirstFresh(items, entries)
      {
        var taken := IsCodeExists(entries[i]);
        if !taken {
          return Some(entries[i]);
        }
        assert entries[i..][1..] == entries[i + 1..];
        i := i + 1;
      }
      return None;
    }

    /**
     * The add flow: takes the first fresh code, then the first non-negative
     * quantity, and appends the new record at the end.
     */
    method AddItem(name: string, codeEntries: seq<string>, quantityEntries: seq<int32>, price: Price)
      returns (r: AddOutcome)
      modifies this
      ensures r.Added? <==> FirstFresh(old(items), codeEntries).Some? && FirstNonNegative(quantityEntries).Some?
      ensures r.Added? ==>
        r.item == Item(name, FirstFresh(old(items), codeEntries).value, FirstNonNegative(quantityEntries).value, price)
      ensures r.Added? ==> !HasCode(old(items), r.item.code) && r.item.quantity >= 0
      ensures items == if r.Added? then old(items) + [r.item] else old(items)
      ensures UniqueCodes(old(items)) ==> UniqueCodes(items)
    {
      var code := ReadFreshCode(codeEntries);
      if code.None? {
        return AddAborted;
      }
      var quantity := ReadNonNegative(quantityEntries);
      if quantity.None? {
        return AddAborted;
      }
      var item := Item(name, code.value, quantity.value, price);
      items := items + [item];
      r := Added(item);
    }

    /** The delete flow: an index scan that removes the first record carrying `code`. */
    method Delete(code: string) returns (r: DeleteOutcome)
      modifies this
      ensures r == if old(items) == [] then NoItemsToDelete
                   else if HasCode(old(items), code) then Deleted
                   else DeleteNotFound
      ensures items == RemoveFirst(old(items), code)
      ensures UniqueCodes(old(items)) ==> UniqueCodes(items) && !HasCode(items, code)
    {
      if items == [] {
        return NoItemsToDelete;
      }
      RemoveFirstAt(items, code);
      if UniqueCodes(items) {
        RemoveFirstKeepsUnique(items, code);
      }
      var found := false;
      var i := 0;
      while i < |items|
        invariant 0 <= i <= |items|
        invariant items == old(items)
        invariant forall j :: 0 <= j < i ==> items[j].code != code
      {
        if items[i].code == code {
          items := items[..i] + items[i + 1..];
          found := true;
          break;
        }
        i := i + 1;
      }
      r := if found then Deleted else DeleteNotFound;
    }

    /**
     * The update flow: finds the first record carrying `code`, reads a
     * non-negative quantity and stores it in that record.
     */
    method UpdateQuantity(code: string, quantityEntries: seq<int32>) returns (r: UpdateOutcome)
      modifies this
      ensures old(items) == [] ==> r == NoItemsToUpdate
      ensures old(items) != [] && !HasCode(old(items), code) ==> r == UpdateNotFound
      ensures HasCode(old(items), code) ==>
        r == match FirstNonNegative(quantityEntries)
             case None => UpdateAborted
             case Some(q) => Updated(q)
      ensures r.Updated? ==> r.quantity >= 0
      ensures items == if r.Updated? then SetFirstQuantity(old(items), code, r.quantity) else old(items)
      ensures UniqueCodes(old(items)) ==> UniqueCodes(items)
    {
      if items == [] {
        return NoItemsToUpdate;
      }
      var found := false;
      r := UpdateNotFound;
      var i := 0;
      while i < |items|
        invariant 0 <= i <= |items|
        invariant items == old(items)
        invariant forall j :: 0 <= j < i ==> items[j].code != code
      {
        if items[i].code == code {
          var q := ReadNonNegative(quantityEntries);
          if q.None? {
            return UpdateAborted;
          }
          SetFirstQuantityAt(items, code, q.value);
          SetFirstQuantityKeeps(items, code, q.value);
          items := items[i := items[i].WithQuantity(q.value)];
          r := Updated(q.value);
          found := true;
          break;
        }
        i := i + 1;
      }
    }

    /** The display flow: every record, in insertion order, numbered from 1. */
    method DisplayAll() returns (r: Listing)
      ensures r.NoItemsToDisplay? <==> items == []
      ensures r.Numbered? ==>
        |r.rows| == |items| &&
        forall k :: 0 <= k < |items| ==> r.rows[k] == (k + 1, items[k])
    {
      if items == [] {
        return NoItemsToDisplay;
      }
      var rows: seq<(nat, Item)> := [];
      for i := 0 to |items|
        invariant |rows| == i
        invariant forall k :: 0 <= k < i ==> rows[k] == (k + 1, items[k])
      {
        rows := rows + [(i + 1, items[i])];
      }
      return Numbered(rows);
    }

    /** The save flow: writes the whole list under the normalised name. */
    method Save(files: Files, name: string) returns (saved: Files)
      ensures Normalize(name) in saved && saved[Normalize(name)] == items
      ensures forall f :: f != Normalize(name) ==> (f in saved <==> f in files)
      ensures forall f :: f in files && f != Normalize(name) ==> saved[f] == files[f]
    {
      var filename := Normalize(name);
      saved := files[filename := items];
    }

    /**
     * The load flow: replaces the whole list by the saved one, without checking
     * that its codes are unique; a missing file leaves the store as it was.
     */
    method Load(files: Files, name: string) returns (r: LoadOutcome)
      modifies this
      ensures r == if Normalize(name) in files then Loaded else FileNotFound
      ensures items == if r.Loaded? then files[Normalize(name)] else old(items)
    {
      var filename := Normalize(name);
      if filename !in files {
        return FileNotFound;
      }
      items := files[filename];
      r := Loaded;
    }
  }
}
