/**
 * randomtable/renderer.go: how a Markdown document fills the tree. The
 * document arrives as a stream of events (a heading, a table header, a
 * table row, an emphasised header cell, a fenced code block) carrying the
 * text of their cells; headings build the namespace under which tables are
 * named, header rows create tables, body rows fill them.
 */
module Renderers {
  import opened Wrappers
  import opened Strings
  import opened Registry
  import Trees
  import RollingTables
  import RandomTables
  import TextTables

  /** The name given to the dice column of a header (renderer.go:17). */
  const RollTableName: string := "ROLLTABLECOLUMN"

  function Min(a: int, b: int): int {
    if a < b then a else b
  }

  // ---------------------------------------------------------------------------
  // Names
  // ---------------------------------------------------------------------------

  /**
   * The name of table `n` under the namespace `ns`: `n` itself at the top
   * level, otherwise the namespace and `n` joined by "/", lower-cased and
   * without spaces.
   */
  function Qualify(ns: seq<string>, n: string): (q: string)
    ensures ns == [] ==> q == n
    ensures ns != [] ==> q == Normalize(Join(ns, "/")) + "/" + Normalize(n)
  {
    if ns == [] then n
    else
      JoinSnoc(ns, "/", n);
      NormalizeAppend(Join(ns, "/") + "/", n);
      NormalizeAppend(Join(ns, "/"), "/");
      Normalize(Join(ns + [n], "/"))
  }

  /** The examples of renderer_test.go: "test" under "test", and at the top level. */
  lemma QualifyExamples()
    ensures Qualify(["test"], "test") == "test/test"
    ensures Qualify([], "test") == "test"
  {
    assert Join(["test"], "/") == "test";
    assert Normalize("test") == "test";
  }

  /** The name a header cell gives its column: the marker for a dice column, else the qualified name. */
  function HeaderName(ns: seq<string>, cell: string): string {
    if RollingTables.IsDiceSpec(cell) then RollTableName else Qualify(ns, cell)
  }

  /** parseHeaderCell for every cell of a header. */
  function HeaderNames(ns: seq<string>, cells: seq<string>): (names: seq<string>)
    ensures |names| == |cells|
    ensures forall i :: 0 <= i < |cells| ==> names[i] == HeaderName(ns, cells[i])
  {
    seq(|cells|, i requires 0 <= i < |cells| => HeaderName(ns, cells[i]))
  }

  /** The dice specification of a header: the last cell that is one, or "" when none is. */
  function DiceColumn(cells: seq<string>): (d: string)
    ensures d == "" ==> forall i :: 0 <= i < |cells| ==> !RollingTables.IsDiceSpec(cells[i])
    ensures d != "" ==> exists i :: 0 <= i < |cells| && cells[i] == d && RollingTables.IsDiceSpec(d)
                          && forall j :: i < j < |cells| ==> !RollingTables.IsDiceSpec(cells[j])
  {
    if cells == [] then ""
    else if RollingTables.IsDiceSpec(cells[|cells| - 1]) then
      assert Split("", 'd') == [""];
      cells[|cells| - 1]
    else
      var d := DiceColumn(cells[..|cells| - 1]);
      assert forall i :: 0 <= i < |cells| - 1 ==> cells[..|cells| - 1][i] == cells[i];
      d
  }

  /** The column of a row holding the dice totals: the last dice column, or -1. */
  function RollColumn(names: seq<string>): (r: int)
    ensures -1 <= r < |names|
    ensures r == -1 ==> forall j :: 0 <= j < |names| ==> names[j] != RollTableName
    ensures r >= 0 ==> names[r] == RollTableName && forall j :: r < j < |names| ==> names[j] != RollTableName
  {
    if names == [] then -1
    else if names[|names| - 1] == RollTableName then |names| - 1
    else
      var r := RollColumn(names[..|names| - 1]);
      assert forall j :: 0 <= j < |names| - 1 ==> names[..|names| - 1][j] == names[j];
      r
  }

  /**
   * The totals a row's roll cell stands for: `^[0-9]+$` is that number,
   * `^[0-9]+-[0-9]+$` every number from the first to the second, anything
   * else nothing.
   */
  function RowKeys(roll: string): (keys: seq<int>)
    ensures forall i :: 0 <= i < |keys| ==> keys[i] >= 0 && keys[i] == keys[0] + i
  {
    if IsDigits(roll) then [DecimalValue(roll)]
    else
      var parts := Split(roll, '-');
      if |parts| == 2 && IsDigits(parts[0]) && IsDigits(parts[1])
      then
        RollingTables.RollRangeElements(DecimalValue(parts[0]), DecimalValue(parts[1]));
        RollingTables.RollRange(DecimalValue(parts[0]), DecimalValue(parts[1]))
      else []
  }

  /** A single number stands for itself. */
  lemma RowKeysSingle(n: nat)
    ensures RowKeys(NatToString(n)) == [n]
  {
    DecimalRoundTrip(n);
  }

  /** "a-b" stands for a, a+1, ..., b: none when a > b, and b - a + 1 keys otherwise. */
  lemma RowKeysRange(a: nat, b: nat)
    ensures RowKeys(NatToString(a) + "-" + NatToString(b)) == RollingTables.RollRange(a, b)
    ensures forall x :: x in RowKeys(NatToString(a) + "-" + NatToString(b)) <==> a <= x <= b
    ensures |RowKeys(NatToString(a) + "-" + NatToString(b))| == if b < a then 0 else b - a + 1
  {
    var sa, sb := NatToString(a), NatToString(b);
    DecimalRoundTrip(a);
    DecimalRoundTrip(b);
    var s := sa + "-" + sb;
    assert s[|sa|] == '-';
    assert !IsDigits(s);
    assert forall i :: 0 <= i < |sa| ==> sa[i] != '-';
    assert forall i :: 0 <= i < |sb| ==> sb[i] != '-';
    assert s == sa + ['-'] + sb;
    SplitAfterFirst(sa, '-', sb);
    SplitWithout(sb, '-');
    RollingTables.RollRangeElements(a, b);
  }

  /**
   * A roll cell adds the row somewhere only if it is a number or two numbers
   * joined by one dash: "1-2-3", "-5" and "1-" stand for nothing.
   */
  lemma RowKeysShape(roll: string)
    ensures RowKeys(roll) != [] ==>
              IsDigits(roll) || exists a, b :: roll == a + "-" + b && IsDigits(a) && IsDigits(b)
    ensures RowKeys(roll) != [] ==> forall i :: 0 <= i < |roll| ==> IsDigit(roll[i]) || roll[i] == '-'
  {
    var parts := Split(roll, '-');
    if !IsDigits(roll) && |parts| == 2 && IsDigits(parts[0]) && IsDigits(parts[1]) {
      JoinSplit(roll, '-');
      assert roll == parts[0] + "-" + parts[1];
      assert IsDigits(parts[0]) && IsDigits(parts[1]);
      forall i | 0 <= i < |roll|
        ensures IsDigit(roll[i]) || roll[i] == '-'
      {
        if i < |parts[0]| {
          assert roll[i] == parts[0][i];
        } else if i > |parts[0]| {
          assert roll[i] == parts[1][i - |parts[0]| - 1];
        }
      }
    }
  }

  /**
   * The fenced-block title rule: a title that starts and ends with "_" names
   * a hidden table, the underscores removed.
   */
  function HiddenTitle(title: string): (r: (string, bool))
    ensures r.1 <==> HasPrefix(title, "_") && HasSuffix(title, "_")
    ensures !r.1 ==> r.0 == title
    ensures r.1 && |title| >= 2 ==> title == "_" + r.0 + "_"
  {
    if HasPrefix(title, "_") && HasSuffix(title, "_") then
      (TrimSuffix(TrimPrefix(title, "_"), "_"), true)
    else (title, false)
  }

  /** `_x_` is the hidden table `x`. */
  lemma HiddenTitleNamed(x: string)
    ensures HiddenTitle("_" + x + "_") == (x, true)
  {
    var t := "_" + x + "_";
    assert HasPrefix(t, "_") && HasSuffix(t, "_");
    assert t[1..] == x + "_";
    assert (x + "_")[..|x|] == x;
  }

  // ---------------------------------------------------------------------------
  // What a header and a row do to the store
  // ---------------------------------------------------------------------------

  /** The empty table a header creates: a list, or a rolling table on the header's dice. */
  function EmptyValue(dice: string): TableValue {
    if dice == "" then RandomValue([]) else RollingValue(map[], dice)
  }

  /** The paths a header creates: every column's but the dice column's. */
  function ColumnKeys(names: seq<string>): set<string> {
    set i | 0 <= i < |names| && names[i] != RollTableName :: Lower(names[i])
  }

  /** A header's new column adds its own path, the dice column none. */
  lemma ColumnKeysSnoc(names: seq<string>)
    requires names != []
    ensures var last := names[|names| - 1];
            ColumnKeys(names) == ColumnKeys(names[..|names| - 1]) + if last != RollTableName then {Lower(last)} else {}
  {
    var init := names[..|names| - 1];
    assert forall i :: 0 <= i < |init| ==> init[i] == names[i];
  }

  /** One more column of a header: its empty table, unless it is the dice column. */
  lemma AddEmptyAllStep(c: map<string, Stored>, names: seq<string>, i: nat, dice: string)
    requires i < |names|
    ensures ColumnKeys(names[..i + 1]) == ColumnKeys(names[..i]) + if names[i] != RollTableName then {Lower(names[i])} else {}
    ensures AddEmptyAll(c, names[..i + 1], dice) ==
              if names[i] == RollTableName then AddEmptyAll(c, names[..i], dice)
              else AddEmptyAll(c, names[..i], dice)[Lower(names[i]) := Stored(EmptyValue(dice), false)]
  {
    assert names[..i + 1][..i] == names[..i];
    ColumnKeysSnoc(names[..i + 1]);
  }

  /**
   * The header's effect on the stored nodes: every path in `keys` holds a
   * visible table, no two of them the same object, and every other path
   * keeps its node.
   */
  ghost predicate NewColumnTables(before: map<string, Node>, after: map<string, Node>, keys: set<string>) {
    && after.Keys == before.Keys + keys
    && (forall k :: k in before && k !in keys ==> after[k] == before[k])
    && (forall k :: k in keys ==> !after[k].hidden)
    && (forall k1, k2 :: k1 in keys && k2 in keys && k1 != k2 ==> after[k1].table.Obj() != after[k2].table.Obj())
  }

  /** One more new table, an object other than the earlier ones, extends a header's effect. */
  lemma NewColumnTablesStep(e0: map<string, Node>, e1: map<string, Node>, e2: map<string, Node>, keys: set<string>, k: string)
    requires NewColumnTables(e0, e1, keys)
    requires NewColumnTables(e1, e2, {k})
    requires forall j :: j in keys && j != k ==> e1[j].table.Obj() != e2[k].table.Obj()
    ensures NewColumnTables(e0, e2, keys + {k})
  {
  }

  /** The store after a header: an empty table under every column name but the dice column's. */
  function AddEmptyAll(c: map<string, Stored>, names: seq<string>, dice: string): map<string, Stored> {
    if names == [] then c
    else
      var prev := AddEmptyAll(c, names[..|names| - 1], dice);
      var name := names[|names| - 1];
      if name == RollTableName then prev else prev[Lower(name) := Stored(EmptyValue(dice), false)]
  }

  /** A header adds exactly the paths of its columns but the dice column. */
  lemma {:induction false} AddEmptyAllKeys(c: map<string, Stored>, names: seq<string>, dice: string)
    ensures AddEmptyAll(c, names, dice).Keys == c.Keys + ColumnKeys(names)
    decreases |names|
  {
    if names != [] {
      AddEmptyAllKeys(c, names[..|names| - 1], dice);
      ColumnKeysSnoc(names);
    }
  }

  /**
   * After a header every column but the dice column has an empty, visible
   * table, and every other path keeps what it held.
   */
  lemma {:induction false} AddEmptyAllSpec(c: map<string, Stored>, names: seq<string>, dice: string)
    ensures var r := AddEmptyAll(c, names, dice);
      && (forall i :: 0 <= i < |names| && names[i] != RollTableName ==>
            Lower(names[i]) in r && r[Lower(names[i])] == Stored(EmptyValue(dice), false))
      && (forall k :: k in c && (forall i :: 0 <= i < |names| && names[i] != RollTableName ==> Lower(names[i]) != k) ==>
            k in r && r[k] == c[k])
      && (forall k :: k in r ==> k in c || exists i :: 0 <= i < |names| && names[i] != RollTableName && Lower(names[i]) == k)
    decreases |names|
  {
    if names != [] {
      var init := names[..|names| - 1];
      AddEmptyAllSpec(c, init, dice);
      assert forall i :: 0 <= i < |init| ==> init[i] == names[i];
    }
  }

  /** One call of `AddItem` a row makes: the table, the text, the positions. */
  datatype Add = Add(table: TableRef, text: string, pos: seq<int>)

  /** The state of table `t` after the calls, of which it receives those addressed to it. */
  function ApplyCalls(v: TableValue, calls: seq<Add>, t: TableRef): TableValue {
    if calls == [] then v
    else
      var prev := ApplyCalls(v, calls[..|calls| - 1], t);
      var a := calls[|calls| - 1];
      if a.table == t then ApplyAdd(prev, a.text, a.pos) else prev
  }

  /** The error of a row: a column whose table cannot be found ("Unable to find table"). */
  datatype RenderError = TableMissing(name: string)

  datatype Plan = Plan(calls: seq<Add>, err: Option<RenderError>)

  /** The calls for one cell: one append without positions, or one call per total of the roll cell. */
  function CellCalls(t: TableRef, text: string, keys: Option<seq<int>>): (calls: seq<Add>)
    ensures keys.None? ==> calls == [Add(t, text, [])]
    ensures keys.Some? ==> |calls| == |keys.value|
    ensures keys.Some? ==> forall j :: 0 <= j < |keys.value| ==> calls[j] == Add(t, text, [keys.value[j]])
  {
    match keys
    case None => [Add(t, text, [])]
    case Some(ks) => seq(|ks|, j requires 0 <= j < |ks| => Add(t, text, [ks[j]]))
  }

  /** The calls a row makes for its first `x` cells, and the error that stopped it, if any. */
  function PlanUpTo(e: map<string, Node>, names: seq<string>, cells: seq<string>, rc: int, x: nat): Plan
    requires x <= |cells| == |names|
    requires -1 <= rc < |cells|
  {
    if x == 0 then Plan([], None)
    else
      var p := PlanUpTo(e, names, cells, rc, x - 1);
      if p.err.Some? || x - 1 == rc then p
      else
        match FindRef(e, names[x - 1])
        case Failure(_) => Plan(p.calls, Some(TableMissing(names[x - 1])))
        case Success(t) =>
          var keys := if rc == -1 then None else Some(RowKeys(cells[rc]));
          Plan(p.calls + CellCalls(t, cells[x - 1], keys), None)
  }

  /**
   * The first `x` cells stop the row exactly when a column among them, other
   * than the roll column, has no table; the error names such a column.
   */
  lemma {:induction false} PlanUpToOutcome(e: map<string, Node>, names: seq<string>, cells: seq<string>, rc: int, x: nat)
    requires x <= |cells| == |names|
    requires -1 <= rc < |cells|
    ensures var p := PlanUpTo(e, names, cells, rc, x);
      && (p.err.None? <==> forall y :: 0 <= y < x && y != rc ==> FindRef(e, names[y]).Success?)
      && (p.err.Some? ==> exists y :: 0 <= y < x && y != rc && FindRef(e, names[y]).Failure? && p.err == Some(TableMissing(names[y])))
  {
    if x > 0 {
      PlanUpToOutcome(e, names, cells, rc, x - 1);
      var p := PlanUpTo(e, names, cells, rc, x - 1);
      if p.err.Some? {
        assert PlanUpTo(e, names, cells, rc, x) == p;
      } else if x - 1 == rc {
        assert PlanUpTo(e, names, cells, rc, x) == p;
      } else if FindRef(e, names[x - 1]).Failure? {
        assert PlanUpTo(e, names, cells, rc, x).err == Some(TableMissing(names[x - 1]));
      } else {
        assert PlanUpTo(e, names, cells, rc, x).err.None?;
      }
    }
  }

  /** The calls a row makes and its outcome. */
  function RowPlan(e: map<string, Node>, names: seq<string>, cells: seq<string>): Plan
    requires |cells| == |names|
  {
    PlanUpTo(e, names, cells, RollColumn(names), |cells|)
  }

  /** A row stops exactly when a column other than the roll column has no table, and says which. */
  lemma RowPlanOutcome(e: map<string, Node>, names: seq<string>, cells: seq<string>)
    requires |cells| == |names|
    ensures var p := RowPlan(e, names, cells);
      && (p.err.None? <==> forall x :: 0 <= x < |names| && x != RollColumn(names) ==> FindRef(e, names[x]).Success?)
      && (p.err.Some? ==> exists x :: 0 <= x < |names| && x != RollColumn(names) && FindRef(e, names[x]).Failure?
                                        && p.err == Some(TableMissing(names[x])))
  {
    PlanUpToOutcome(e, names, cells, RollColumn(names), |cells|);
  }

  /** The totals each cell of a row is added at: none without a roll column. */
  function CellKeys(names: seq<string>, cells: seq<string>): Option<seq<int>>
    requires |cells| == |names|
  {
    var rc := RollColumn(names);
    if rc == -1 then None else Some(RowKeys(cells[rc]))
  }

  /**
   * What each column of a row receives, column by column: its own cell,
   * once or once per total; the roll column and columns whose table is
   * missing receive nothing.
   */
  function ColumnCalls(e: map<string, Node>, names: seq<string>, cells: seq<string>): (cs: seq<seq<Add>>)
    requires |cells| == |names|
    ensures |cs| == |names|
  {
    seq(|names|, x requires 0 <= x < |names| =>
      if x == RollColumn(names) || FindRef(e, names[x]).Failure? then []
      else CellCalls(FindRef(e, names[x]).value, cells[x], CellKeys(names, cells)))
  }

  /** The lists one after another. */
  function Flatten<T>(s: seq<seq<T>>): seq<T> {
    if s == [] then [] else Flatten(s[..|s| - 1]) + s[|s| - 1]
  }

  /** Flattening one more list of a prefix appends that list. */
  lemma FlattenPrefix<T>(s: seq<seq<T>>, x: nat)
    requires 0 < x <= |s|
    ensures Flatten(s[..x]) == Flatten(s[..x - 1]) + s[x - 1]
  {
    assert s[..x][..x - 1] == s[..x - 1];
  }

  /**
   * When every column's table exists, the row does not stop, and its calls
   * are the columns' own calls in column order.
   */
  lemma RowPlanComplete(e: map<string, Node>, names: seq<string>, cells: seq<string>)
    requires |cells| == |names|
    requires forall x :: 0 <= x < |names| && x != RollColumn(names) ==> FindRef(e, names[x]).Success?
    ensures RowPlan(e, names, cells) == Plan(Flatten(ColumnCalls(e, names, cells)), None)
  {
    PlanPrefix(e, names, cells, |names|);
    assert ColumnCalls(e, names, cells)[..|names|] == ColumnCalls(e, names, cells);
  }

  lemma {:induction false} PlanPrefix(e: map<string, Node>, names: seq<string>, cells: seq<string>, x: nat)
    requires x <= |cells| == |names|
    requires forall y :: 0 <= y < x && y != RollColumn(names) ==> FindRef(e, names[y]).Success?
    ensures PlanUpTo(e, names, cells, RollColumn(names), x) == Plan(Flatten(ColumnCalls(e, names, cells)[..x]), None)
  {
    if x > 0 {
      PlanPrefix(e, names, cells, x - 1);
      var cs, rc := ColumnCalls(e, names, cells), RollColumn(names);
      FlattenPrefix(cs, x);
      var p := PlanUpTo(e, names, cells, rc, x - 1);
      assert p == Plan(Flatten(cs[..x - 1]), None);
      if x - 1 == rc {
        assert cs[x - 1] == [];
      } else {
        var t := FindRef(e, names[x - 1]).value;
        assert cs[x - 1] == CellCalls(t, cells[x - 1], CellKeys(names, cells));
        assert PlanUpTo(e, names, cells, rc, x) == Plan(p.calls + cs[x - 1], None);
      }
    }
  }

  /** The tables of a store hold the values `before` with the calls applied. */
  ghost predicate Applied(e: map<string, Node>, before: map<string, TableValue>, calls: seq<Add>)
    reads set k | k in e :: e[k].table.Obj()
  {
    forall k :: k in e && k in before ==> ValueOf(e[k].table) == ApplyCalls(before[k], calls, e[k].table)
  }

  /** The state of every stored table, as a value. */
  ghost function TableValues(e: map<string, Node>): map<string, TableValue>
    reads set k | k in e :: e[k].table.Obj()
  {
    map k | k in e :: ValueOf(e[k].table)
  }

  /** Before any call, every table holds its starting value. */
  lemma NothingApplied(e: map<string, Node>, before: map<string, TableValue>)
    requires before == TableValues(e)
    ensures Applied(e, before, [])
  {
  }

  /** Two references to one object are the same reference. */
  lemma ObjInjective(a: TableRef, b: TableRef)
    requires a.Obj() == b.Obj()
    ensures a == b
  {
  }

  /** Performs one call, keeping `Applied` for the calls made so far. */
  method Perform(a: Add, ghost e: map<string, Node>, ghost before: map<string, TableValue>, ghost done: seq<Add>)
    requires Applied(e, before, done)
    modifies a.table.Obj()
    ensures Applied(e, before, done + [a])
  {
    AddItemTo(a.table, a.text, a.pos);
    forall k | k in e && k in before
      ensures ValueOf(e[k].table) == ApplyCalls(before[k], done + [a], e[k].table)
    {
      assert (done + [a])[..|done|] == done;
      if e[k].table != a.table {
        if e[k].table.Obj() == a.table.Obj() {
          ObjInjective(e[k].table, a.table);
        }
      }
    }
  }

  /** Once a column fails, the rest of the row adds nothing. */
  lemma {:induction false} PlanStops(e: map<string, Node>, names: seq<string>, cells: seq<string>, rc: int, x: nat, y: nat)
    requires x <= y <= |cells| == |names|
    requires -1 <= rc < |cells|
    requires PlanUpTo(e, names, cells, rc, x).err.Some?
    ensures PlanUpTo(e, names, cells, rc, y) == PlanUpTo(e, names, cells, rc, x)
    decreases y - x
  {
    if x < y {
      assert PlanUpTo(e, names, cells, rc, x + 1) == PlanUpTo(e, names, cells, rc, x);
      PlanStops(e, names, cells, rc, x + 1, y);
    }
  }

  /** The first loop of renderTableRow: the last dice column, or -1. */
  method FindRollColumn(names: seq<string>) returns (rollColumn: int)
    ensures rollColumn == RollColumn(names)
  {
    rollColumn := -1;
    for x := 0 to |names|
      invariant rollColumn == RollColumn(names[..x])
    {
      assert names[..x + 1][..x] == names[..x];
      if names[x] == RollTableName {
        rollColumn := x;
      }
    }
    assert names[..|names|] == names;
  }

  /** Adds one cell's text to its table: once, or once per total. */
  method AddCell(t: TableRef, text: string, keys: Option<seq<int>>,
                 ghost e: map<string, Node>, ghost before: map<string, TableValue>, ghost done: seq<Add>)
    requires Applied(e, before, done)
    modifies t.Obj()
    ensures Applied(e, before, done + CellCalls(t, text, keys))
  {
    match keys {
      case None =>
        Perform(Add(t, text, []), e, before, done);
      case Some(ks) =>
        ghost var d := done;
        for j := 0 to |ks|
          invariant d == done + CellCalls(t, text, Some(ks[..j]))
          invariant Applied(e, before, d)
        {
          assert CellCalls(t, text, Some(ks[..j + 1])) == CellCalls(t, text, Some(ks[..j])) + [Add(t, text, [ks[j]])];
          Perform(Add(t, text, [ks[j]]), e, before, d);
          d := d + [Add(t, text, [ks[j]])];
        }
        assert ks[..|ks|] == ks;
    }
  }

  // ---------------------------------------------------------------------------
  // The renderer
  // ---------------------------------------------------------------------------

  class Renderer {
    const tree: Trees.Tree
    var namespace: seq<string>
    var depth: int
    /** The table name of each column of the current Markdown table. */
    var currentTableNames: seq<string>

    /** The heading stack and its depth agree. */
    ghost predicate Valid()
      reads this
    {
      depth == |namespace|
    }

    /** NewRandomTableRenderer: an empty namespace over the given tree. */
    constructor (tree: Trees.Tree)
      ensures this.tree == tree && namespace == [] && depth == 0 && currentTableNames == []
      ensures Valid()
    {
      this.tree := tree;
      namespace := [];
      depth := 0;
      currentTableNames := [];
    }

    /** Push: a heading opens a level of the namespace. */
    method Push(name: string)
      modifies this
      ensures namespace == old(namespace) + [name] && depth == old(depth) + 1
      ensures currentTableNames == old(currentTableNames)
      ensures old(Valid()) ==> Valid()
    {
      namespace := namespace + [name];
      depth := depth + 1;
    }

    /** Pop: closes the innermost level; nothing happens when there is none. */
    method Pop()
      modifies this
      ensures if old(depth) != 0 && |old(namespace)| != 0
              then namespace == old(namespace)[..|old(namespace)| - 1] && depth == old(depth) - 1
              else namespace == old(namespace) && depth == old(depth)
      ensures currentTableNames == old(currentTableNames)
      ensures old(Valid()) ==> Valid()
    {
      if depth != 0 && |namespace| != 0 {
        namespace := namespace[..|namespace| - 1];
        depth := depth - 1;
      }
    }

    /** The namespace as a path. */
    function Namespace(): (s: string)
      reads this
      ensures namespace == [] ==> s == ""
      ensures |namespace| == 1 ==> s == Normalize(namespace[0])
    {
      Normalize(Join(namespace, "/"))
    }

    /** The path of table `n` in the current namespace. */
    function Name(n: string): (q: string)
      reads this
      ensures namespace == [] ==> q == n
      ensures namespace != [] ==> q == Namespace() + "/" + Normalize(n)
    {
      Qualify(namespace, n)
    }

    /**
     * renderHeading: a heading of level `level` closes every level from
     * `level` on and opens its own.
     */
    method RenderHeading(level: int, text: string)
      requires 1 <= level && Valid()
      modifies this
      ensures Valid()
      ensures namespace == old(namespace)[..Min(|old(namespace)|, level - 1)] + [text]
      ensures currentTableNames == old(currentTableNames)
    {
      while level <= depth
        invariant Valid()
        invariant |namespace| <= |old(namespace)|
        invariant namespace == old(namespace)[..|namespace|]
        invariant |namespace| == |old(namespace)| || |namespace| >= level - 1
        invariant currentTableNames == old(currentTableNames)
        decreases depth
      {
        Pop();
      }
      Push(text);
    }

    /**
     * renderTableHeader: names every column after its header cell, then
     * creates an empty table for every column but the dice column: rolling
     * tables on the header's dice when there is a dice column, lists otherwise.
     */
    method RenderTableHeader(cells: seq<string>)
      requires |cells| > 0
      modifies this, tree.tables
      ensures currentTableNames == HeaderNames(namespace, cells)
      ensures namespace == old(namespace) && depth == old(depth)
      ensures tree.tables.Contents() == AddEmptyAll(old(tree.tables.Contents()), currentTableNames, DiceColumn(cells))
      ensures NewColumnTables(old(tree.tables.entries), tree.tables.entries, ColumnKeys(currentTableNames))
      ensures forall k :: k in ColumnKeys(currentTableNames) ==> fresh(tree.tables.entries[k].table.Obj())
    {
      ghost var c0 := tree.tables.Contents();
      ghost var e0 := tree.tables.entries;
      var diceRoll := NameColumns(cells);
      assert tree.tables.Contents() == c0;
      assert tree.tables.entries == e0;
      ghost var names := currentTableNames;
      CreateTables(currentTableNames, diceRoll);
      assert currentTableNames == names;
      assert tree.tables.Contents() == AddEmptyAll(c0, names, diceRoll);
    }

    /** The first loop of renderTableHeader: parseHeaderCell on every cell. */
    method NameColumns(cells: seq<string>) returns (diceRoll: string)
      modifies this
      ensures currentTableNames == HeaderNames(namespace, cells)
      ensures diceRoll == DiceColumn(cells)
      ensures namespace == old(namespace) && depth == old(depth)
    {
      currentTableNames := seq(|cells|, _ => "");
      diceRoll := "";
      for col := 0 to |cells|
        invariant namespace == old(namespace) && depth == old(depth)
        invariant |currentTableNames| == |cells|
        invariant forall i :: 0 <= i < col ==> currentTableNames[i] == HeaderName(namespace, cells[i])
        invariant diceRoll == DiceColumn(cells[..col])
      {
        assert cells[..col + 1][..col] == cells[..col];
        if RollingTables.IsDiceSpec(cells[col]) {
          diceRoll := cells[col];
          currentTableNames := currentTableNames[col := RollTableName];
        } else {
          currentTableNames := currentTableNames[col := Name(cells[col])];
        }
      }
      assert cells[..|cells|] == cells;
    }

    /** A new table for a column: a list, or a rolling table on the header's dice. */
    method AddEmptyTable(name: string, dice: string)
      modifies tree.tables
      ensures tree.tables.Contents() == old(tree.tables.Contents())[Lower(name) := Stored(EmptyValue(dice), false)]
      ensures NewColumnTables(old(tree.tables.entries), tree.tables.entries, {Lower(name)})
      ensures fresh(tree.tables.entries[Lower(name)].table.Obj())
      ensures tree.tables.entries[Lower(name)].table.Obj() !in old(tree.tables.Objects())
    {
      ghost var c := tree.tables.Contents();
      if dice == "" {
        var t := new RandomTables.RandomTable();
        assert t !in tree.tables.Objects();
        assert tree.tables.Contents() == c;
        tree.AddTable(name, RandomRef(t), false);
      } else {
        var t := new RollingTables.RollingTable(dice);
        assert t !in tree.tables.Objects();
        assert tree.tables.Contents() == c;
        tree.AddTable(name, RollingRef(t), false);
      }
    }

    /** The second loop of renderTableHeader: an empty table per named column. */
    method CreateTables(names: seq<string>, dice: string)
      modifies tree.tables
      ensures tree.tables.Contents() == AddEmptyAll(old(tree.tables.Contents()), names, dice)
      ensures NewColumnTables(old(tree.tables.entries), tree.tables.entries, ColumnKeys(names))
      ensures forall k :: k in ColumnKeys(names) ==> fresh(tree.tables.entries[k].table.Obj())
    {
      ghost var c0, e0 := tree.tables.Contents(), tree.tables.entries;
      for i := 0 to |names|
        invariant tree.tables.Contents() == AddEmptyAll(c0, names[..i], dice)
        invariant NewColumnTables(e0, tree.tables.entries, ColumnKeys(names[..i]))
        invariant forall k :: k in ColumnKeys(names[..i]) ==> fresh(tree.tables.entries[k].table.Obj())
      {
        AddEmptyAllStep(c0, names, i, dice);
        if names[i] != RollTableName {
          AddColumnTable(names[i], dice, e0, ColumnKeys(names[..i]));
        }
      }
      assert names[..|names|] == names;
    }

    /** A column's new table, recorded among the tables the header has made so far. */
    method AddColumnTable(name: string, dice: string, ghost e0: map<string, Node>, ghost keys: set<string>)
      requires NewColumnTables(e0, tree.tables.entries, keys)
      modifies tree.tables
      ensures tree.tables.Contents() == old(tree.tables.Contents())[Lower(name) := Stored(EmptyValue(dice), false)]
      ensures NewColumnTables(e0, tree.tables.entries, keys + {Lower(name)})
      ensures fresh(tree.tables.entries[Lower(name)].table.Obj())
      ensures forall k :: k in keys && k != Lower(name) ==> tree.tables.entries[k] == old(tree.tables.entries)[k]
    {
      ghost var e1 := tree.tables.entries;
      label Before:
      AddEmptyTable(name, dice);
      ghost var o := tree.tables.entries[Lower(name)].table.Obj();
      forall j | j in keys && j != Lower(name)
        ensures e1[j].table.Obj() != o
      {
        assert e1[j].table.Obj() in old@Before(tree.tables.Objects());
      }
      NewColumnTablesStep(e0, e1, tree.tables.entries, keys, Lower(name));
    }

    /**
     * renderTableRow: adds each cell's text to its column's table, at the
     * totals of the roll cell when the table has a dice column; stops at
     * the first column whose table cannot be found, keeping what was added.
     */
    method RenderTableRow(cells: seq<string>) returns (err: Option<RenderError>)
      requires |cells| == |currentTableNames|
      modifies tree.tables.Objects()
      ensures err == RowPlan(tree.tables.entries, currentTableNames, cells).err
      ensures Applied(tree.tables.entries, old(TableValues(tree.tables.entries)),
                      RowPlan(tree.tables.entries, currentTableNames, cells).calls)
    {
      ghost var e := tree.tables.entries;
      ghost var before := TableValues(e);
      var names := currentTableNames;
      var rollColumn := FindRollColumn(names);
      err := AddColumns(names, cells, rollColumn, e, before);
    }

    /** The last loop of renderTableRow: every column but the roll column, in order. */
    method AddColumns(names: seq<string>, cells: seq<string>, rollColumn: int,
                      ghost e: map<string, Node>, ghost before: map<string, TableValue>)
      returns (err: Option<RenderError>)
      requires |cells| == |names| && rollColumn == RollColumn(names)
      requires tree.tables.entries == e && before == TableValues(e)
      modifies tree.tables.Objects()
      ensures tree.tables.entries == e && currentTableNames == old(currentTableNames)
      ensures err == RowPlan(e, names, cells).err
      ensures Applied(e, before, RowPlan(e, names, cells).calls)
    {
      ghost var done: seq<Add> := [];
      NothingApplied(e, before);
      TablesOnly(tree.tables, this);
      TablesOnly(tree.tables, tree.tables);
      for x := 0 to |cells|
        invariant tree.tables.entries == e
        invariant currentTableNames == old(currentTableNames)
        invariant PlanUpTo(e, names, cells, rollColumn, x) == Plan(done, None)
        invariant Applied(e, before, done)
      {
        if x == rollColumn {
          assert PlanUpTo(e, names, cells, rollColumn, x + 1) == Plan(done, None);
          continue;
        }
        var failed;
        failed, done := AddColumn(names, cells, rollColumn, x, e, before, done);
        if failed {
          PlanStops(e, names, cells, rollColumn, x + 1, |cells|);
          assert RowPlan(e, names, cells) == Plan(done, Some(TableMissing(names[x])));
          return Some(TableMissing(names[x]));
        }
      }
      assert RowPlan(e, names, cells) == Plan(done, None);
      return None;
    }

    /**
     * One column of renderTableRow: the cell's text goes to the column's
     * table, unless the table cannot be found.
     */
    method AddColumn(names: seq<string>, cells: seq<string>, rollColumn: int, x: nat,
                     ghost e: map<string, Node>, ghost before: map<string, TableValue>, ghost done: seq<Add>)
      returns (failed: bool, ghost done': seq<Add>)
      requires x < |cells| == |names| && -1 <= rollColumn < |cells| && x != rollColumn
      requires tree.tables.entries == e
      requires PlanUpTo(e, names, cells, rollColumn, x) == Plan(done, None)
      requires Applied(e, before, done)
      modifies tree.tables.Objects()
      ensures tree.tables.entries == e && currentTableNames == old(currentTableNames)
      ensures PlanUpTo(e, names, cells, rollColumn, x + 1)
           == Plan(done', if failed then Some(TableMissing(names[x])) else None)
      ensures Applied(e, before, done')
    {
      TablesOnly(tree.tables, this);
      TablesOnly(tree.tables, tree.tables);
      var table := tree.GetTable(names[x]);
      if table.Failure? {
        return true, done;
      }
      var keys := if rollColumn == -1 then None else Some(RowKeys(cells[rollColumn]));
      assert table.value.Obj() in tree.tables.Objects() by {
        assert table.value == e[Lower(names[x])].table;
      }
      AddCell(table.value, cells[x], keys, e, before, done);
      return false, done + CellCalls(table.value, cells[x], keys);
    }

    /**
     * renderEmphasis: an emphasised header cell hides its table; the node
     * is stored again under the qualified name as it is.
     */
    method RenderEmphasis(text: string) returns (err: Option<TreeError>)
      modifies tree.tables
      ensures var r := FindRef(old(tree.tables.entries), Name(text));
        && (r.Failure? ==> err == Some(r.error) && tree.tables.entries == old(tree.tables.entries))
        && (r.Success? ==> err == None && tree.tables.entries == old(tree.tables.entries)[Name(text) := Node(r.value, true)])
    {
      var name := Name(text);
      var t := tree.GetTable(name);
      if t.Failure? {
        return Some(t.error);
      }
      tree.tables.Put(name, Node(t.value, true));
      return None;
    }

    /**
     * renderFencedCodeBlock: a block with a title becomes a text table
     * holding its lines one after another, hidden when the title is `_x_`;
     * a block without a title is ignored.
     */
    method RenderFencedCodeBlock(title: Option<string>, lines: seq<string>)
      modifies tree.tables
      ensures title.None? ==> tree.tables.entries == old(tree.tables.entries)
      ensures title.Some? ==>
        var h := HiddenTitle(title.value);
        tree.tables.Contents() == old(tree.tables.Contents())[Lower(Name(h.0)) := Stored(TextValue(Concat(lines)), h.1)]
    {
      if title.None? {
        return;
      }
      var (name, hidden) := HiddenTitle(title.value);
      var result := "";
      for i := 0 to |lines|
        invariant result == Concat(lines[..i])
      {
        assert lines[..i + 1][..i] == lines[..i];
        result := result + lines[i];
      }
      assert lines[..|lines|] == lines;
      AddTextTable(Name(name), result, hidden);
    }

    /** A new text table holding `text`, stored under `name`. */
    method AddTextTable(name: string, text: string, hidden: bool)
      modifies tree.tables
      ensures tree.tables.Contents() == old(tree.tables.Contents())[Lower(name) := Stored(TextValue(text), hidden)]
    {
      ghost var c := tree.tables.Contents();
      var t := new TextTables.TextTable();
      t.AddItem(text, []);
      assert t !in tree.tables.Objects();
      assert tree.tables.Contents() == c;
      tree.AddTable(name, TextRef(t), hidden);
      assert t.text == text;
    }
  }

  /** renderer_test.go: a fresh namespace is empty; "test" names "test/test" under "test" and "test" again after a pop. */
  method NameExample() returns (fresh0: string, nested: string, popped: string)
    ensures fresh0 == "" && nested == "test/test" && popped == "test"
  {
    var tree := new Trees.Tree();
    var r := new Renderer(tree);
    fresh0 := r.Namespace();
    r.Push("test");
    nested := r.Name("test");
    QualifyExamples();
    r.Pop();
    popped := r.Name("test");
  }

  lemma PlacesCastleName()
    ensures Qualify(["Places", "Castle"], "Name") == "places/castle/name"
  {
    PlacesCastlePath();
    NormalizeTo("Name", "name");
  }

  lemma PlacesCastlePath()
    ensures Normalize(Join(["Places", "Castle"], "/")) == "places/castle"
  {
    assert Join(["Places", "Castle"], "/") == "Places/Castle";
    NormalizeTo("Places/Castle", "places/castle");
  }

  /** e2e_test.go: "# People", "# Places", "## Castle" put the column "Name" at "places/castle/name". */
  method HeadingExample() returns (name: string)
    ensures name == "places/castle/name"
  {
    var tree := new Trees.Tree();
    var r := new Renderer(tree);
    r.RenderHeading(1, "People");
    assert r.namespace == ["People"];
    r.RenderHeading(1, "Places");
    assert r.namespace == ["Places"];
    r.RenderHeading(2, "Castle");
    assert r.namespace == ["Places"] + ["Castle"];
    name := r.Name("Name");
    PlacesCastleName();
  }
}
