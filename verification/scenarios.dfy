/**
 * Sessions that chain several flows on one store, stating what the whole
 * session leaves behind.
 */
module Scenarios {
  import opened Wrappers
  import opened Items
  import opened Records
  import opened Prompts
  import opened FileNames
  import opened InventoryStore

  /** Two adds with distinct codes, then the display: two rows, numbered 1 and 2, in order. */
  method TwoAddsThenDisplay(widgetPrice: Price, gadgetPrice: Price) returns (r: Listing)
    ensures r == Numbered([(1, Item("Widget", "W1", 10, widgetPrice)), (2, Item("Gadget", "G1", 5, gadgetPrice))])
  {
    var inventory := new Inventory();
    var first := inventory.AddItem("Widget", ["W1"], [10], widgetPrice);
    assert !HasCode([Item("Widget", "W1", 10, widgetPrice)], "G1");
    var second := inventory.AddItem("Gadget", ["G1"], [5], gadgetPrice);
    r := inventory.DisplayAll();
  }

  /**
   * A code already in use is refused and asked for again, and so is a negative
   * quantity: the add goes through with the first acceptable entries.
   */
  method DuplicateCodeIsAskedAgain(price: Price) returns (retried: AddOutcome, size: nat)
    ensures retried == Added(Item("Other", "O1", 1, price))
    ensures size == 2
  {
    var inventory := new Inventory();
    var first := inventory.AddItem("Widget", ["W1"], [10], price);
    ghost var widget := Item("Widget", "W1", 10, price);
    assert inventory.items == [widget];
    assert FirstFresh([widget], ["W1", "O1"]) == Some("O1") by {
      assert [widget][0].code == "W1";
      assert !HasCode([widget], "O1");
    }
    assert FirstNonNegative([-1, 1]) == Some(1);
    retried := inventory.AddItem("Other", ["W1", "O1"], [-1, 1], price);
    size := |inventory.items|;
  }

  /**
   * When every code typed is already in use and the user has nothing more to
   * type, the add is abandoned and the store keeps the one record it has.
   */
  method InputRunsOutAtCodePrompt(price: Price) returns (abandoned: AddOutcome, size: nat)
    ensures abandoned == AddAborted
    ensures size == 1
  {
    var inventory := new Inventory();
    var first := inventory.AddItem("Widget", ["W1"], [10], price);
    ghost var widget := Item("Widget", "W1", 10, price);
    assert inventory.items == [widget];
    assert FirstFresh([widget], ["W1"]) == None by {
      assert [widget][0].code == "W1";
    }
    abandoned := inventory.AddItem("Other", ["W1"], [1], price);
    size := |inventory.items|;
  }

  /**
   * Saving and then loading under names that normalise to the same file (say
   * "stock" and "stock.dat") gives back exactly the list that was saved.
   */
  method SaveThenLoad(inventory: Inventory, files: Files, saveName: string, loadName: string)
    returns (r: LoadOutcome)
    requires Normalize(saveName) == Normalize(loadName)
    modifies inventory
    ensures r == Loaded && inventory.items == old(inventory.items)
  {
    var saved := inventory.Save(files, saveName);
    r := inventory.Load(saved, loadName);
  }

  /**
   * A loaded list is not checked for duplicate codes. If it holds two records
   * with one code, deleting that code removes only the first and the code is
   * still present.
   */
  method DeleteAfterDuplicateLoad(inventory: Inventory, files: Files, name: string, code: string, i: nat, j: nat)
    returns (loaded: LoadOutcome, deleted: DeleteOutcome)
    requires Normalize(name) in files
    requires i < j < |files[Normalize(name)]|
    requires files[Normalize(name)][i].code == code && files[Normalize(name)][j].code == code
    modifies inventory
    ensures loaded == Loaded && deleted == Deleted
    ensures |inventory.items| == |files[Normalize(name)]| - 1
    ensures HasCode(inventory.items, code)
  {
    loaded := inventory.Load(files, name);
    ghost var s := inventory.items;
    RemoveFirstLeavesLaterDuplicate(s, code, i, j);
    deleted := inventory.Delete(code);
  }
}
