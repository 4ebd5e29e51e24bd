/**
 * randomtable/tree.go: the registry of tables and the item resolver.
 *
 * An item is a template. Its pieces are literal text, `lookup` calls that
 * draw an item from another table (paths starting with "./" are relative
 * to the table being drawn from), `roll` calls on a dice specification,
 * and errors that stop the template. The template engine itself is a
 * parameter (`Env.parse`), and so are the random draws (`Env.draw`): the
 * k-th draw of one top-level call is `draw(k)`.
 */
module Trees {
  import opened Wrappers
  import opened Strings
  import opened Registry
  import RollingTables
  import Formatters

  /** tree.go:27: nested lookups stop after this many. */
  const MaxLookupDepth: nat := 100

  /** How many more lookups may recurse. */
  function Budget(depth: nat): nat {
    if depth < MaxLookupDepth then MaxLookupDepth - depth else 0
  }

  function Max(a: nat, b: nat): nat {
    if a < b then b else a
  }

  // ---------------------------------------------------------------------------
  // Templates
  // ---------------------------------------------------------------------------

  datatype Segment =
    | Lit(text: string)      // text outside any action
    | Lookup(target: string) // {{lookup "target"}}
    | Roll(spec: string)     // {{roll "spec"}}
    | Halt                   // an action that fails when executed; output so far is kept

  datatype Template = Parsed(segs: seq<Segment>) | Malformed

  /** The template parser and the source of random numbers. */
  datatype Env = Env(parse: string -> Template, draw: nat -> int)

  /** The text produced, the error if any, and the lookup depth and the draw count afterwards. */
  datatype Outcome = Outcome(text: string, err: Option<TreeError>, depth: nat, next: nat)

  /** The item a table yields for the draw `d`: `rand.Intn` for a list, a dice total for a rolling table. */
  function Draw(v: TableValue, d: int, name: string): (r: Result<string, TreeError>)
    ensures v.RandomValue? && |v.items| > 0 ==> r.Success? && r.value in v.items
    ensures v.RandomValue? && v.items == [] ==> r == Failure(EmptyTable(name))
    ensures v.RollingValue? ==> r.Success? && (d in v.rolls ==> r.value == v.rolls[d])
    ensures v.RollingValue? && d !in v.rolls ==> r == Success("")
  {
    match v
    case RandomValue(items) =>
      if |items| == 0 then Failure(EmptyTable(name)) else Success(items[d % |items|])
    case RollingValue(rolls, _) => Success(RollingTables.ItemAt(rolls, d))
    case TextValue(t) => Success(t)
  }

  /** Every item of a list table is drawn for some draw. */
  lemma EveryItemDrawable(items: seq<string>, i: nat, name: string)
    requires i < |items|
    ensures Draw(RandomValue(items), i, name) == Success(items[i])
  {
  }

  /**
   * getLookup's path rewriting: a leading "./" becomes the caller's path
   * without its last segment, followed by "/".
   */
  function RelativeTarget(arg: string, caller: string): (t: string)
    ensures !HasPrefix(arg, "./") ==> t == arg
    ensures HasPrefix(arg, "./") ==> exists d :: DirectoryOf(caller, d) && t == d + "/" + arg[2..]
  {
    if HasPrefix(arg, "./") then
      var parts := Split(caller, '/');
      CallerDirectory(caller);
      ReplaceFirst(arg, "./", Join(parts[..|parts| - 1], "/") + "/")
    else arg
  }

  /** `d` is the directory of `path`: all before its last "/", or "" when it has none. */
  predicate DirectoryOf(path: string, d: string) {
    if '/' in path then |d| < |path| && path[..|d|] == d && path[|d|] == '/' && '/' !in path[|d| + 1..]
    else d == ""
  }

  /** Dropping the last segment of a path and joining the others gives its directory. */
  lemma CallerDirectory(caller: string)
    ensures var parts := Split(caller, '/');
            DirectoryOf(caller, Join(parts[..|parts| - 1], "/"))
  {
    var parts := Split(caller, '/');
    var n := |parts|;
    JoinSplit(caller, '/');
    SplitPiecesWithout(caller, '/');
    if n == 1 {
      assert caller == parts[0];
    } else {
      var d := Join(parts[..n - 1], "/");
      assert parts[..n - 1] + [parts[n - 1]] == parts;
      JoinSnoc(parts[..n - 1], "/", parts[n - 1]);
      assert caller == d + "/" + parts[n - 1];
      assert caller[|d|] == '/';
      assert caller[|d| + 1..] == parts[n - 1];
    }
  }

  /** "./x" becomes the caller's segments but the last, joined, then "/x". */
  lemma RelativeRewrite(rest: string, caller: string)
    ensures var parts := Split(caller, '/');
            RelativeTarget("./" + rest, caller) == Join(parts[..|parts| - 1], "/") + "/" + rest
  {
    var arg := "./" + rest;
    assert HasPrefix(arg, "./");
    assert arg[2..] == rest;
  }

  /** From "a/b/.../c", "./x" names the sibling "a/b/.../x". */
  lemma RelativeSibling(dirs: seq<string>, last: string, rest: string)
    requires |dirs| > 0
    requires forall i :: 0 <= i < |dirs| ==> '/' !in dirs[i]
    requires '/' !in last
    ensures RelativeTarget("./" + rest, Join(dirs + [last], "/")) == Join(dirs, "/") + "/" + rest
  {
    var parts := dirs + [last];
    SegmentsWithoutSlash(dirs, last);
    SplitJoin(parts, '/');
    assert parts[..|parts| - 1] == dirs;
    RelativeRewrite(rest, Join(parts, "/"));
  }

  lemma SegmentsWithoutSlash(dirs: seq<string>, last: string)
    requires forall i :: 0 <= i < |dirs| ==> '/' !in dirs[i]
    requires '/' !in last
    ensures forall i :: 0 <= i < |dirs + [last]| ==> '/' !in (dirs + [last])[i]
  {
    forall i | 0 <= i < |dirs + [last]|
      ensures '/' !in (dirs + [last])[i]
    {
      if i < |dirs| {
        assert (dirs + [last])[i] == dirs[i];
      }
    }
  }

  /** e2e_test.go: "./table" looked up from "nested/lookup" is "nested/table". */
  lemma RelativeExample()
    ensures RelativeTarget("./table", "nested/lookup") == "nested/table"
  {
    var dirs, last := ["nested"], "lookup";
    assert "./table" == "./" + "table";
    assert dirs + [last] == ["nested", "lookup"];
    assert Join(["nested", "lookup"], "/") == "nested/lookup";
    RelativeSibling(dirs, last, "table");
    assert Join(dirs, "/") + "/" + "table" == "nested/table";
  }

  /** A top-level caller has no directory: "./x" becomes "/x". */
  lemma RelativeFromTopLevel(caller: string, rest: string)
    requires '/' !in caller
    ensures RelativeTarget("./" + rest, caller) == "/" + rest
  {
    SplitWithout(caller, '/');
    RelativeRewrite(rest, caller);
  }

  // ---------------------------------------------------------------------------
  // The resolver, on the store's contents
  // ---------------------------------------------------------------------------

  /** getItem: find the table, draw an item, render it with the table's path as caller. */
  function GetItemSpec(c: map<string, Stored>, path: string, depth: nat, k: nat, env: Env): (o: Outcome)
    ensures depth <= o.depth <= Max(depth, MaxLookupDepth) && k <= o.next
    ensures o.err.Some? ==> o.text == ""
    decreases Budget(depth), 3, 0
  {
    match FindTable(c, path)
    case Failure(e) => Outcome("", Some(e), depth, k)
    case Success(v) =>
      match Draw(v, env.draw(k), path)
      case Failure(e) => Outcome("", Some(e), depth, k)
      case Success(item) => RenderItemSpec(c, item, path, depth, k + 1, env)
  }

  /** renderItem: a template that does not parse is an error; errors while executing are dropped. */
  function RenderItemSpec(c: map<string, Stored>, item: string, caller: string, depth: nat, k: nat, env: Env): (o: Outcome)
    ensures depth <= o.depth <= Max(depth, MaxLookupDepth) && k <= o.next
    ensures o.err.Some? ==> o.text == ""
    decreases Budget(depth), 2, 0
  {
    match env.parse(item)
    case Malformed => Outcome("", Some(TemplateError(item)), depth, k)
    case Parsed(segs) =>
      var r := ExecSpec(c, segs, caller, depth, k, env);
      Outcome(r.text, None, r.depth, r.next)
  }

  /**
   * Template execution: the pieces' output in order, up to the first
   * failing action; the error is that action's, and the output before it
   * is kept.
   */
  function ExecSpec(c: map<string, Stored>, segs: seq<Segment>, caller: string, depth: nat, k: nat, env: Env): (o: Outcome)
    ensures depth <= o.depth <= Max(depth, MaxLookupDepth) && k <= o.next
    ensures o.err.Some? ==> o.err == Some(ActionFailed) || o.err.value.EmptyTable?
    decreases Budget(depth), 1, |segs|
  {
    if segs == [] then Outcome("", None, depth, k)
    else
      var s := StepSpec(c, segs[0], caller, depth, k, env);
      if s.err.Some? then s
      else
        var r := ExecSpec(c, segs[1..], caller, s.depth, s.next, env);
        Outcome(s.text + r.text, r.err, r.depth, r.next)
  }

  /** One piece of a template: its text, a dice roll, a nested lookup, or an action that fails. */
  function StepSpec(c: map<string, Stored>, seg: Segment, caller: string, depth: nat, k: nat, env: Env): (o: Outcome)
    ensures depth <= o.depth <= Max(depth, MaxLookupDepth) && k <= o.next
    ensures o.err.Some? ==> o.text == "" && (o.err == Some(ActionFailed) || o.err.value.EmptyTable?)
    ensures seg.Halt? ==> o == Outcome("", Some(ActionFailed), depth, k)
    decreases Budget(depth), 0, 1
  {
    match seg
    case Halt => Outcome("", Some(ActionFailed), depth, k)
    case Lit(t) => Outcome(t, None, depth, k)
    case Roll(spec) =>
      var s := RollSpec(spec, env, k);
      Outcome(s.0, None, depth, s.1)
    case Lookup(arg) => LookupSpec(c, arg, caller, depth, k, env)
  }

  /**
   * The `lookup` template function: past the depth limit the (rewritten)
   * path itself is the result; otherwise the depth goes up by one and the
   * nested item is drawn, its error dropped. A draw from an empty list
   * table panics inside the function (`rand.Intn(0)`); the template engine
   * turns that panic into an error of the calling template, which stops.
   */
  function LookupSpec(c: map<string, Stored>, arg: string, caller: string, depth: nat, k: nat, env: Env): (o: Outcome)
    ensures depth <= o.depth <= Max(depth, MaxLookupDepth) && k <= o.next
    ensures o.err.Some? ==> o.text == "" && o.err.value.EmptyTable?
    decreases Budget(depth), 0, 0
  {
    var target := RelativeTarget(arg, caller);
    if depth >= MaxLookupDepth then Outcome(target, None, depth, k)
    else
      var g := GetItemSpec(c, target, depth + 1, k, env);
      if g.err.Some? && g.err.value.EmptyTable? then g
      else Outcome(g.text, None, g.depth, g.next)
  }

  /** The `roll` template function: a dice total, or the text itself when it is not a dice spec. */
  function RollSpec(spec: string, env: Env, k: nat): (r: (string, nat))
    ensures RollingTables.IsDiceSpec(spec) ==> r == (IntToString(env.draw(k)), k + 1)
    ensures !RollingTables.IsDiceSpec(spec) ==> r == (spec, k)
  {
    if RollingTables.IsDiceSpec(spec) then (IntToString(env.draw(k)), k + 1) else (spec, k)
  }

  // ---------------------------------------------------------------------------
  // Properties of the resolver
  // ---------------------------------------------------------------------------

  /** A missing table is reported as "not found" under its lower-cased name. */
  lemma MissingTableIsNotFound(c: map<string, Stored>, path: string, depth: nat, k: nat, env: Env)
    requires Lower(path) !in c
    ensures GetItemSpec(c, path, depth, k, env) == Outcome("", Some(NotFound(Lower(path))), depth, k)
  {
  }

  /** A text table cannot be drawn from: GetTable rejects it. */
  lemma TextTableRejected(c: map<string, Stored>, path: string, depth: nat, k: nat, env: Env)
    requires Lower(path) in c && c[Lower(path)].value.TextValue?
    ensures GetItemSpec(c, path, depth, k, env) == Outcome("", Some(UnknownTableType), depth, k)
  {
  }

  /** Past the limit a lookup does not recurse: it yields the path it would have looked up. */
  lemma LookupAtLimit(c: map<string, Stored>, arg: string, caller: string, depth: nat, k: nat, env: Env)
    requires depth >= MaxLookupDepth
    ensures LookupSpec(c, arg, caller, depth, k, env) == Outcome(RelativeTarget(arg, caller), None, depth, k)
  {
  }

  /** A nested lookup of a missing or unusable table yields the empty string, not an error. */
  lemma FailedLookupIsEmpty(c: map<string, Stored>, arg: string, caller: string, depth: nat, k: nat, env: Env)
    requires depth < MaxLookupDepth
    requires FindTable(c, RelativeTarget(arg, caller)).Failure?
    ensures LookupSpec(c, arg, caller, depth, k, env) == Outcome("", None, depth + 1, k)
  {
  }

  /** A nested draw from an empty list table stops the calling template, with no draw taken. */
  lemma EmptyLookupStops(c: map<string, Stored>, arg: string, caller: string, depth: nat, k: nat, env: Env)
    requires depth < MaxLookupDepth
    requires FindTable(c, RelativeTarget(arg, caller)) == Success(RandomValue([]))
    ensures LookupSpec(c, arg, caller, depth, k, env)
         == Outcome("", Some(EmptyTable(RelativeTarget(arg, caller))), depth + 1, k)
  {
  }

  /**
   * `A{{lookup "t"}}B` with `t` an empty list table renders "A": the
   * template stops at the lookup, and its output so far is the item.
   */
  lemma EmptyLookupKeepsPrefix(c: map<string, Stored>, item: string, a: string, t: string, b: string,
                               caller: string, depth: nat, k: nat, env: Env)
    requires depth < MaxLookupDepth && !HasPrefix(t, "./")
    requires FindTable(c, t) == Success(RandomValue([]))
    requires env.parse(item) == Parsed([Lit(a), Lookup(t), Lit(b)])
    ensures RenderItemSpec(c, item, caller, depth, k, env) == Outcome(a, None, depth + 1, k)
  {
    var segs := [Lit(a), Lookup(t), Lit(b)];
    assert RelativeTarget(t, caller) == t;
    EmptyLookupStops(c, t, caller, depth, k, env);
    assert StepSpec(c, Lookup(t), caller, depth, k, env) == Outcome("", Some(EmptyTable(t)), depth + 1, k);
    assert segs[1..] == [Lookup(t), Lit(b)];
    assert ExecSpec(c, segs[1..], caller, depth, k, env) == Outcome("", Some(EmptyTable(t)), depth + 1, k);
    assert a + "" == a;
    assert ExecSpec(c, segs, caller, depth, k, env) == Outcome(a, Some(EmptyTable(t)), depth + 1, k);
  }

  /** `roll` on something that is not a dice spec leaves it as it is and draws nothing. */
  lemma RollFallback(c: map<string, Stored>, spec: string, caller: string, depth: nat, k: nat, env: Env)
    requires !RollingTables.IsDiceSpec(spec)
    ensures ExecSpec(c, [Roll(spec)], caller, depth, k, env) == Outcome(spec, None, depth, k)
  {
    assert [Roll(spec)][1..] == [];
  }

  /** A template of plain text renders to that text. */
  lemma PlainItem(c: map<string, Stored>, item: string, caller: string, depth: nat, k: nat, env: Env)
    requires env.parse(item) == Parsed([Lit(item)])
    ensures RenderItemSpec(c, item, caller, depth, k, env) == Outcome(item, None, depth, k)
  {
    assert [Lit(item)][1..] == [];
    assert item + "" == item;
    assert ExecSpec(c, [Lit(item)], caller, depth, k, env) == Outcome(item, None, depth, k);
  }

  /**
   * Executing two lists of pieces in a row is executing their
   * concatenation: the second runs only if the first did not stop.
   */
  lemma {:induction false} ExecAppend(c: map<string, Stored>, a: seq<Segment>, b: seq<Segment>, caller: string, depth: nat, k: nat, env: Env)
    ensures var ra := ExecSpec(c, a, caller, depth, k, env);
            var rb := ExecSpec(c, b, caller, ra.depth, ra.next, env);
            ExecSpec(c, a + b, caller, depth, k, env)
              == if ra.err.Some? then ra else Outcome(ra.text + rb.text, rb.err, rb.depth, rb.next)
    decreases |a|
  {
    if a == [] {
      assert a + b == b;
    } else {
      assert (a + b)[0] == a[0] && (a + b)[1..] == a[1..] + b;
      var s := StepSpec(c, a[0], caller, depth, k, env);
      if s.err.None? {
        ExecAppend(c, a[1..], b, caller, s.depth, s.next, env);
        var ra := ExecSpec(c, a[1..], caller, s.depth, s.next, env);
        var rb := ExecSpec(c, b, caller, ra.depth, ra.next, env);
        assert s.text + (ra.text + rb.text) == (s.text + ra.text) + rb.text;
      }
    }
  }

  /** A table whose only item looks itself up, from the given depth on. */
  ghost predicate SelfReferencing(c: map<string, Stored>, path: string, env: Env) {
    && Lower(path) == path
    && !HasPrefix(path, "./")
    && path in c
    && c[path].value.RandomValue?
    && |c[path].value.items| == 1
    && env.parse(c[path].value.items[0]) == Parsed([Lookup(path)])
  }

  /**
   * A self-referencing table terminates: the lookups nest until the depth
   * reaches the limit, and the innermost one yields the path itself.
   */
  lemma {:induction false} SelfReferenceStops(c: map<string, Stored>, path: string, depth: nat, k: nat, env: Env)
    requires SelfReferencing(c, path, env)
    requires depth <= MaxLookupDepth
    ensures GetItemSpec(c, path, depth, k, env)
         == Outcome(path, None, MaxLookupDepth, k + (MaxLookupDepth - depth) + 1)
    decreases MaxLookupDepth - depth
  {
    var item := c[path].value.items[0];
    assert FindTable(c, path) == Success(c[path].value);
    assert Draw(c[path].value, env.draw(k), path) == Success(item);
    assert RelativeTarget(path, path) == path;
    var l := LookupSpec(c, path, path, depth, k + 1, env);
    if depth < MaxLookupDepth {
      SelfReferenceStops(c, path, depth + 1, k + 1, env);
      assert l == Outcome(path, None, MaxLookupDepth, k + (MaxLookupDepth - depth) + 1);
    } else {
      assert l == Outcome(path, None, depth, k + 1);
    }
    assert [Lookup(path)][1..] == [];
    assert ExecSpec(c, [], path, l.depth, l.next, env) == Outcome("", None, l.depth, l.next);
    assert l.text + "" == l.text;
    assert StepSpec(c, Lookup(path), path, depth, k + 1, env) == l;
    assert ExecSpec(c, [Lookup(path)], path, depth, k + 1, env) == l;
  }

  // ---------------------------------------------------------------------------
  // The tree
  // ---------------------------------------------------------------------------

  /** Table paths in ascending order, each once. */
  predicate StrictlySorted(s: seq<string>) {
    forall i, j :: 0 <= i < j < |s| ==> Less(s[i], s[j])
  }

  class Tree {
    /** The trie; copies of a tree share it. */
    const tables: TableStore
    var lookupDepth: nat
    var formatter: Option<Formatters.Formatter>

    /** NewTree: an empty store, depth 0 (the limit is `MaxLookupDepth`). */
    constructor ()
      ensures fresh(tables) && tables.entries == map[]
      ensures lookupDepth == 0 && formatter == None
    {
      tables := new TableStore();
      lookupDepth := 0;
      formatter := None;
    }

    /** A copy of `other` with another formatter, sharing its store. */
    constructor Copy(other: Tree, f: Formatters.Formatter)
      ensures tables == other.tables && lookupDepth == other.lookupDepth && formatter == Some(f)
    {
      tables := other.tables;
      lookupDepth := other.lookupDepth;
      formatter := Some(f);
    }

    /** WithHtmlFormatter: a copy whose formatter is the HTML one; the receiver is untouched. */
    method WithHtmlFormatter() returns (t: Tree)
      ensures fresh(t) && t.tables == tables && t.lookupDepth == lookupDepth
      ensures t.formatter == Some(Formatters.HtmlFormatter)
    {
      t := new Tree.Copy(this, Formatters.HtmlFormatter);
    }

    /** WithStringFormatter: a copy whose formatter is the identity; the receiver is untouched. */
    method WithStringFormatter() returns (t: Tree)
      ensures fresh(t) && t.tables == tables && t.lookupDepth == lookupDepth
      ensures t.formatter == Some(Formatters.StringFormatter)
    {
      t := new Tree.Copy(this, Formatters.StringFormatter);
    }

    /** AddTable: stores the table under the lower-cased name, replacing what was there. */
    method AddTable(name: string, table: TableRef, hidden: bool)
      modifies tables
      ensures tables.entries == old(tables.entries)[Lower(name) := Node(table, hidden)]
      ensures tables.Contents() == old(tables.Contents())[Lower(name) := Stored(ValueOf(table), hidden)]
    {
      tables.Put(Lower(name), Node(table, hidden));
    }

    /**
     * GetTable: the table object under the lower-cased name, if it is a
     * random or a rolling table; what it finds is what `FindTable` finds
     * among the stored values.
     */
    function GetTable(name: string): (r: Result<TableRef, TreeError>)
      reads this, tables, tables.Objects()
      ensures r.Success? ==> Lower(name) in tables.entries && r.value == tables.entries[Lower(name)].table
      ensures r.Success? ==> FindTable(tables.Contents(), name) == Success(ValueOf(r.value))
      ensures r.Failure? ==> FindTable(tables.Contents(), name) == Failure(r.error)
    {
      FindRef(tables.entries, name)
    }

    /**
     * ListTables: the visible paths starting with `prefix`, in the order
     * the trie walk visits them (ascending).
     */
    method ListTables(prefix: string) returns (names: seq<string>)
      ensures forall x :: x in names <==>
        x in tables.entries && !tables.entries[x].hidden && HasPrefix(x, prefix)
      ensures StrictlySorted(names)
    {
      names := [];
      var rest := tables.entries.Keys;
      while rest != {}
        invariant rest <= tables.entries.Keys
        invariant forall x :: x in names <==>
          x in tables.entries.Keys - rest && !tables.entries[x].hidden && HasPrefix(x, prefix)
        invariant StrictlySorted(names)
        invariant forall x, y :: x in names && y in rest ==> Less(x, y)
        decreases rest
      {
        LeastExists(rest);
        var key :| key in rest && forall x :: x in rest ==> !Less(x, key);
        forall y | y in rest - {key}
          ensures Less(key, y)
        {
          LessTotal(key, y);
        }
        if !tables.entries[key].hidden && HasPrefix(key, prefix) {
          names := names + [key];
        }
        rest := rest - {key};
      }
    }

    /** GetItem: resolves an item from the path, then resets the lookup depth. */
    method GetItem(path: string, env: Env) returns (item: string, err: Option<TreeError>)
      modifies this
      ensures lookupDepth == 0 && formatter == old(formatter)
      ensures var o := GetItemSpec(tables.Contents(), path, old(lookupDepth), 0, env);
              item == o.text && err == o.err
    {
      ghost var c := tables.Contents();
      var draws;
      item, err, draws := getItem(path, env, 0);
      assert tables.Contents() == c;
      lookupDepth := 0;
      assert tables.Contents() == c;
    }

    method getItem(path: string, env: Env, k: nat) returns (item: string, err: Option<TreeError>, next: nat)
      modifies this
      ensures var o := GetItemSpec(tables.Contents(), path, old(lookupDepth), k, env);
              item == o.text && err == o.err && lookupDepth == o.depth && next == o.next
      ensures tables.Contents() == old(tables.Contents())
      ensures formatter == old(formatter)
      decreases Budget(lookupDepth), 3
    {
      var tb := GetTable(path);
      if tb.Failure? {
        return "", Some(tb.error), k;
      }
      ghost var c := tables.Contents();
      var raw: string;
      match tb.value {
        case RandomRef(t) =>
          if |t.items| == 0 {
            return "", Some(EmptyTable(path)), k;
          }
          raw := t.GetItem(env.draw(k) % |t.items|);
        case RollingRef(t) =>
          raw := t.GetItem(env.draw(k));
      }
      assert tables.Contents() == c;
      item, err, next := renderItem(raw, path, env, k + 1);
    }

    method renderItem(raw: string, caller: string, env: Env, k: nat) returns (item: string, err: Option<TreeError>, next: nat)
      modifies this
      ensures var o := RenderItemSpec(tables.Contents(), raw, caller, old(lookupDepth), k, env);
              item == o.text && err == o.err && lookupDepth == o.depth && next == o.next
      ensures tables.Contents() == old(tables.Contents())
      ensures formatter == old(formatter)
      decreases Budget(lookupDepth), 2
    {
      var tmpl := env.parse(raw);
      if tmpl.Malformed? {
        return "", Some(TemplateError(raw)), k;
      }
      var segs := tmpl.segs;
      ghost var c := tables.Contents();
      ghost var full := ExecSpec(c, segs, caller, lookupDepth, k, env);
      var out := "";
      next := k;
      var i := 0;
      while i < |segs|
        invariant 0 <= i <= |segs|
        invariant old(lookupDepth) <= lookupDepth
        invariant tables.Contents() == c && formatter == old(formatter)
        invariant var r := ExecSpec(c, segs[i..], caller, lookupDepth, next, env);
                  out + r.text == full.text && r.depth == full.depth && r.next == full.next
        decreases |segs| - i
      {
        assert segs[i..][0] == segs[i] && segs[i..][1..] == segs[i + 1..];
        var s, failed;
        s, failed, next := step(segs[i], caller, env, next);
        if failed.Some? {
          assert out == full.text;
          break;
        }
        out := out + s;
        i := i + 1;
      }
      return out, None, next;
    }

    /** Executes one piece of a template drawn from `caller`; `failed` is the error that stops the template. */
    method step(seg: Segment, caller: string, env: Env, k: nat) returns (s: string, failed: Option<TreeError>, next: nat)
      modifies this
      ensures var o := StepSpec(tables.Contents(), seg, caller, old(lookupDepth), k, env);
              s == o.text && failed == o.err && lookupDepth == o.depth && next == o.next
      ensures tables.Contents() == old(tables.Contents())
      ensures formatter == old(formatter)
      decreases Budget(lookupDepth), 1
    {
      failed := None;
      match seg {
        case Halt =>
          s, failed, next := "", Some(ActionFailed), k;
        case Lit(t) =>
          s, next := t, k;
        case Roll(spec) =>
          s, next := roll(spec, env, k);
        case Lookup(arg) =>
          s, failed, next := lookup(arg, caller, env, k);
      }
    }

    /**
     * The `lookup` function of a template drawn from `caller`; `panicked`
     * is the failed draw from an empty list table that stops the template.
     */
    method lookup(arg: string, caller: string, env: Env, k: nat) returns (item: string, panicked: Option<TreeError>, next: nat)
      modifies this
      ensures var o := LookupSpec(tables.Contents(), arg, caller, old(lookupDepth), k, env);
              item == o.text && panicked == o.err && lookupDepth == o.depth && next == o.next
      ensures tables.Contents() == old(tables.Contents())
      ensures formatter == old(formatter)
      decreases Budget(lookupDepth), 0
    {
      var target := arg;
      if HasPrefix(arg, "./") {
        var tablePaths := Split(caller, '/');
        var pathToTable := Join(tablePaths[..|tablePaths| - 1], "/");
        target := ReplaceFirst(arg, "./", pathToTable + "/");
      }
      if lookupDepth >= MaxLookupDepth {
        return target, None, k;
      }
      lookupDepth := lookupDepth + 1;
      var err;
      item, err, next := getItem(target, env, k);
      panicked := None;
      if err.Some? && err.value.EmptyTable? {
        panicked := err;
      }
    }

    /** The `roll` function of a template. */
    method roll(spec: string, env: Env, k: nat) returns (result: string, next: nat)
      ensures (result, next) == RollSpec(spec, env, k)
    {
      if RollingTables.IsDiceSpec(spec) {
        return IntToString(env.draw(k)), k + 1;
      }
      return spec, k;
    }
  }
}
