/**
 * The store behind the registry in randomtable/tree.go: a path trie,
 * modelled as a map from path to the table kept there. A table is a
 * reference to one of the three table objects; several paths may refer
 * to the same object.
 */
module Registry {
  import opened Wrappers
  import opened Strings
  import RandomTables
  import RollingTables
  import TextTables

  /** A stored table: which kind it is and the object itself (Go's `Table` interface value). */
  datatype TableRef =
    | RandomRef(random: RandomTables.RandomTable)
    | RollingRef(rolling: RollingTables.RollingTable)
    | TextRef(text: TextTables.TextTable)
  {
    function Obj(): object {
      match this
      case RandomRef(t) => t
      case RollingRef(t) => t
      case TextRef(t) => t
    }
  }

  /** What a path holds: the table and whether listings leave it out. */
  datatype Node = Node(table: TableRef, hidden: bool)

  /** The state of a table object, as a value. */
  datatype TableValue =
    | RandomValue(items: seq<string>)
    | RollingValue(rolls: map<int, string>, dice: string)
    | TextValue(text: string)

  datatype Stored = Stored(value: TableValue, hidden: bool)

  function ValueOf(t: TableRef): TableValue
    reads t.Obj()
  {
    match t
    case RandomRef(r) => RandomValue(r.items)
    case RollingRef(r) => RollingValue(r.items, r.dicestr)
    case TextRef(r) => TextValue(r.text)
  }

  /** The state of a table after `AddItem(text, pos...)`, for each kind of table. */
  function ApplyAdd(v: TableValue, text: string, pos: seq<int>): TableValue {
    match v
    case RandomValue(items) => RandomValue(items + [text])
    case RollingValue(rolls, dice) => RollingValue(RollingTables.PutAll(rolls, pos, text), dice)
    case TextValue(t) => TextValue(t + text)
  }

  /** `Table.AddItem`, dispatched on the kind of table. */
  method AddItemTo(t: TableRef, text: string, pos: seq<int>)
    modifies t.Obj()
    ensures ValueOf(t) == ApplyAdd(old(ValueOf(t)), text, pos)
  {
    match t
    case RandomRef(r) => r.AddItem(text, pos);
    case RollingRef(r) => var _ := r.AddItem(text, pos);
    case TextRef(r) => r.AddItem(text, pos);
  }

  /** Errors of the registry and of the item resolver. */
  datatype TreeError =
    | NotFound(name: string)       // "%s table not found"
    | UnknownTableType             // "Unable to determine table type"
    | EmptyTable(name: string)     // a draw from a table with no items (`rand.Intn(0)` panics)
    | TemplateError(item: string)  // the item does not parse as a template
    | ActionFailed                 // a template action fails while the template executes

  /**
   * GetTable on the store's contents: the lower-cased path must be present
   * and hold a random or a rolling table.
   */
  function FindTable(c: map<string, Stored>, name: string): (r: Result<TableValue, TreeError>)
    ensures r.Success? ==> Lower(name) in c && r.value == c[Lower(name)].value && !r.value.TextValue?
    ensures r.Failure? ==>
      r.error == (if Lower(name) !in c then NotFound(Lower(name)) else UnknownTableType)
  {
    var key := Lower(name);
    if key !in c then Failure(NotFound(key))
    else if c[key].value.TextValue? then Failure(UnknownTableType)
    else Success(c[key].value)
  }

  /**
   * GetTable on the stored references: the same rule as `FindTable`, but
   * yielding the table object itself.
   */
  function FindRef(entries: map<string, Node>, name: string): (r: Result<TableRef, TreeError>)
    ensures r.Success? ==> Lower(name) in entries && r.value == entries[Lower(name)].table && !r.value.TextRef?
    ensures r.Failure? ==>
      r.error == (if Lower(name) !in entries then NotFound(Lower(name)) else UnknownTableType)
  {
    var key := Lower(name);
    if key !in entries then Failure(NotFound(key))
    else if entries[key].table.TextRef? then Failure(UnknownTableType)
    else Success(entries[key].table)
  }

  /** A table stored under a name is found under every spelling of it that lowers to the same key. */
  lemma FindAfterPut(c: map<string, Stored>, name: string, other: string, s: Stored)
    requires Lower(other) == Lower(name)
    ensures FindTable(c[Lower(name) := s], other)
         == if s.value.TextValue? then Failure(UnknownTableType) else Success(s.value)
  {
  }

  /** Storing under one name does not change what another key finds. */
  lemma FindOtherAfterPut(c: map<string, Stored>, name: string, other: string, s: Stored)
    requires Lower(other) != Lower(name)
    ensures FindTable(c[Lower(name) := s], other) == FindTable(c, other)
  {
  }

  /** A name stored in any casing is found in any other casing. */
  lemma FindIgnoresCase(c: map<string, Stored>, name: string)
    ensures FindTable(c, name) == FindTable(c, Lower(name))
  {
    LowerIdempotent(name);
  }

  /** Whatever is not a table object is none of the tables a store refers to. */
  lemma TablesOnly(s: TableStore, o: object)
    requires !(o is RandomTables.RandomTable) && !(o is RollingTables.RollingTable) && !(o is TextTables.TextTable)
    ensures o !in s.Objects()
  {
  }

  class TableStore {
    var entries: map<string, Node>

    /** trie.NewPathTrie: nothing stored. */
    constructor ()
      ensures entries == map[]
    {
      entries := map[];
    }

    /** PathTrie.Put: stores the node under the key as it is, replacing what was there. */
    method Put(key: string, node: Node)
      modifies this
      ensures entries == old(entries)[key := node]
      ensures Contents() == old(Contents())[key := Stored(ValueOf(node.table), node.hidden)]
    {
      entries := entries[key := node];
    }

    /** The table objects the store refers to. */
    ghost function Objects(): set<object>
      reads this
    {
      set k | k in entries :: entries[k].table.Obj()
    }

    /** The tables as values, each with its hidden flag. */
    ghost function Contents(): map<string, Stored>
      reads this, Objects()
    {
      map k | k in entries :: Stored(ValueOf(entries[k].table), entries[k].hidden)
    }
  }
}
