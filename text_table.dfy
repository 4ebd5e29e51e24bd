/**
 * randomtable/text_table.go: a table holding one block of text.
 */
module TextTables {

  class TextTable {
    var text: string

    /** NewTextTable: empty text. */
    constructor ()
      ensures text == ""
    {
      text := "";
    }

    /** GetItem: the whole text, unchanged by reading it. */
    method GetItem() returns (item: string)
      ensures item == text
    {
      item := text;
    }

    /** AddItem: appends the item to the text; the position arguments are ignored. */
    method AddItem(item: string, pos: seq<int>)
      modifies this
      ensures text == old(text) + item
    {
      text := text + item;
    }

    /** Validate: a block of text has nothing to check, and checking changes nothing. */
    method Validate()
      ensures unchanged(this)
    {
    }

    /** AllItems: the text as the only item. */
    function AllItems(): (all: seq<string>)
      reads this
      ensures |all| == 1 && all[0] == text
    {
      [text]
    }
  }
}
