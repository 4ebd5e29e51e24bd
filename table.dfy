/**
 * randomtable/table.go: a list of items from which one is drawn at random.
 */
module RandomTables {

  class RandomTable {
    var items: seq<string>

    /** NewRandomTable: no items yet (the time-based seed is not modelled). */
    constructor ()
      ensures items == []
    {
      items := [];
    }

    /**
     * GetItem, given the index `rand.Intn(len(items))` chose. An empty
     * table has no index to give (`rand.Intn(0)` panics).
     */
    method GetItem(index: nat) returns (item: string)
      requires index < |items|
      ensures item == items[index]
      ensures item in items
    {
      item := items[index];
    }

    /** AddItem: appends the item; the position arguments are ignored. */
    method AddItem(item: string, pos: seq<int>)
      modifies this
      ensures items == old(items) + [item]
    {
      items := items + [item];
    }

    /** Validate: a list of items has nothing to check. */
    method Validate() returns (errs: seq<string>)
      ensures errs == []
    {
      errs := [];
    }
  }

  /** A table with one item draws that item for the only index `rand.Intn(1)` yields. */
  method SingleItemTable(item: string, index: nat) returns (drawn: string)
    requires index < 1
    ensures drawn == item
  {
    var t := new RandomTable();
    t.AddItem(item, []);
    drawn := t.GetItem(index);
  }
}
