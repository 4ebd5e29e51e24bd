/**
 * randomtable/rolling_table.go: a table indexed by dice totals, the dice
 * specification parser and the coverage validator.
 */
module RollingTables {
  import opened Wrappers
  import opened Strings
  import Util

  // ---------------------------------------------------------------------------
  // Dice specifications
  // ---------------------------------------------------------------------------

  /**
   * The dice library's roll pattern, modelled as the whole text being
   * `[count]d<sides>`: an optional run of digits, the letter `d`, and at
   * least one digit. Yields the two digit groups.
   */
  function MatchDice(s: string): Option<(string, string)> {
    var parts := Split(s, 'd');
    if |parts| == 2 && AllDigits(parts[0]) && IsDigits(parts[1]) then Some((parts[0], parts[1])) else None
  }

  /** A match is the text split at its one `d`: an optional count, at least one digit of sides. */
  lemma MatchDiceSound(s: string)
    ensures MatchDice(s).Some? ==>
              s == MatchDice(s).value.0 + "d" + MatchDice(s).value.1 && AllDigits(MatchDice(s).value.0) && IsDigits(MatchDice(s).value.1)
  {
    var parts := Split(s, 'd');
    if MatchDice(s).Some? {
      JoinSplit(s, 'd');
      assert Join(parts, "d") == parts[0] + "d" + parts[1];
    }
  }

  /** Text of the form digits, `d`, digits is matched with a non-empty count. */
  lemma MatchDiceComplete(s: string)
    ensures (exists a, b :: s == a + "d" + b && IsDigits(a) && IsDigits(b)) ==>
              MatchDice(s).Some? && MatchDice(s).value.0 != ""
  {
    if exists a, b :: s == a + "d" + b && IsDigits(a) && IsDigits(b) {
      var a, b :| s == a + "d" + b && IsDigits(a) && IsDigits(b);
      MatchDiceDigits(a, b);
    }
  }

  /** Digits, `d`, digits is matched, and yields exactly its two digit groups. */
  lemma MatchDiceDigits(a: string, b: string)
    requires AllDigits(a) && IsDigits(b)
    ensures MatchDice(a + "d" + b) == Some((a, b))
  {
    assert 'd' !in a && 'd' !in b by {
      assert forall i :: 0 <= i < |a| ==> IsDigit(a[i]);
      assert forall i :: 0 <= i < |b| ==> IsDigit(b[i]);
    }
    SplitAfterFirst(a, 'd', b);
    SplitWithout(b, 'd');
    assert a + "d" + b == a + ['d'] + b;
  }

  predicate IsDiceSpec(s: string) {
    MatchDice(s).Some?
  }

  /** The problems `Validate` reports. */
  datatype ValidationError =
    | DiceParseError(spec: string)  // strconv could not read the count or the sides
    | OutsideDiceRange(roll: int)   // "%v is outside of the dice range"
    | NotRollable(roll: int)        // "%v is not rollable"

  /**
   * parseDiceString: the count and the sides of "NdM". An absent count
   * ("d6") fails to parse, as `strconv.ParseInt("")` does.
   */
  function ParseDiceString(dicestr: string): (r: Result<(nat, nat), ValidationError>)
    ensures r.Failure? ==> r.error == DiceParseError(dicestr)
    ensures r.Success? <==> exists a, b :: dicestr == a + "d" + b && IsDigits(a) && IsDigits(b)
    ensures r.Success? ==> exists a, b :: dicestr == a + "d" + b && IsDigits(a) && IsDigits(b)
                                          && r.value == (DecimalValue(a), DecimalValue(b))
  {
    MatchDiceComplete(dicestr);
    MatchDiceSound(dicestr);
    match MatchDice(dicestr)
    case None => Failure(DiceParseError(dicestr))
    case Some((count, sides)) =>
      if count == "" then Failure(DiceParseError(dicestr))
      else
        assert dicestr == count + "d" + sides && IsDigits(count) && IsDigits(sides);
        Success((DecimalValue(count), DecimalValue(sides)))
  }

  /** Printing "NdM" and parsing it gives back (N, M). */
  lemma ParseDiceRoundTrip(n: nat, m: nat)
    ensures ParseDiceString(NatToString(n) + "d" + NatToString(m)) == Success((n, m))
  {
    var a, b := NatToString(n), NatToString(m);
    DecimalRoundTrip(n);
    DecimalRoundTrip(m);
    assert 'd' !in a && 'd' !in b by {
      assert forall i :: 0 <= i < |a| ==> IsDigit(a[i]);
      assert forall i :: 0 <= i < |b| ==> IsDigit(b[i]);
    }
    SplitAfterFirst(a, 'd', b);
    SplitWithout(b, 'd');
    assert a + "d" + b == a + ['d'] + b;
  }

  /** The least reachable total: the count, or 0 when the spec does not parse. */
  function MinRoll(dicestr: string): int {
    match ParseDiceString(dicestr)
    case Success((count, _)) => count
    case Failure(_) => 0
  }

  /** The greatest reachable total: count * sides, or 0 when the spec does not parse. */
  function MaxRoll(dicestr: string): int {
    match ParseDiceString(dicestr)
    case Success((count, sides)) => count * sides
    case Failure(_) => 0
  }

  function ParseErrors(dicestr: string): seq<ValidationError> {
    match ParseDiceString(dicestr)
    case Success(_) => []
    case Failure(e) => [e]
  }

  /** The integers lo, lo+1, ..., hi (none when hi < lo). */
  function RollRange(lo: int, hi: int): seq<int>
    decreases hi - lo
  {
    if hi < lo then [] else RollRange(lo, hi - 1) + [hi]
  }

  lemma {:induction false} RollRangeElements(lo: int, hi: int)
    ensures forall x :: x in RollRange(lo, hi) <==> lo <= x <= hi
    ensures Util.NoDuplicates(RollRange(lo, hi))
    ensures |RollRange(lo, hi)| == if hi < lo then 0 else hi - lo + 1
    ensures forall i :: 0 <= i < |RollRange(lo, hi)| ==> RollRange(lo, hi)[i] == lo + i
    decreases hi - lo
  {
    if lo <= hi {
      var init := RollRange(lo, hi - 1);
      RollRangeElements(lo, hi - 1);
      assert RollRange(lo, hi) == init + [hi];
      assert forall i :: 0 <= i < |init| ==> (init + [hi])[i] == init[i];
    }
  }

  /** A key no roll of the dice can reach. */
  predicate Unreachable(k: int, dicestr: string) {
    k < MinRoll(dicestr) || k > MaxRoll(dicestr)
  }

  /** One error for every key that no roll of the dice can reach. */
  function OutOfRangeErrors(keys: set<int>, dicestr: string): set<ValidationError> {
    set k | k in keys && Unreachable(k, dicestr) :: OutsideDiceRange(k)
  }

  /** The reachable totals, ascending, that have no item. */
  function Uncovered(keys: set<int>, dicestr: string): seq<int> {
    Util.Without(RollRange(MinRoll(dicestr), MaxRoll(dicestr)), keys)
  }

  /** One error for every reachable total, in ascending order, that has no item. */
  function NotRollableErrors(keys: set<int>, dicestr: string): seq<ValidationError> {
    var missing := Uncovered(keys, dicestr);
    seq(|missing|, i requires 0 <= i < |missing| => NotRollable(missing[i]))
  }

  /**
   * What `Validate` returns: the parse error if any, then one error per
   * key outside the range (in the map's iteration order, which is not
   * fixed), then one error per uncovered total, ascending.
   */
  ghost predicate IsValidationReport(errs: seq<ValidationError>, keys: set<int>, dicestr: string) {
    exists outs: seq<ValidationError> ::
      && errs == ParseErrors(dicestr) + outs + NotRollableErrors(keys, dicestr)
      && Util.NoDuplicates(outs)
      && forall e :: e in outs <==> e in OutOfRangeErrors(keys, dicestr)
  }

  /** The keys are exactly the totals the dice can produce. */
  ghost predicate CoversExactly(keys: set<int>, dicestr: string) {
    forall x :: x in keys <==> MinRoll(dicestr) <= x <= MaxRoll(dicestr)
  }

  /** A table whose keys are exactly [count, count*sides] gets no range or coverage error. */
  lemma ExactCoverReportsNothing(errs: seq<ValidationError>, keys: set<int>, dicestr: string)
    requires IsValidationReport(errs, keys, dicestr)
    requires CoversExactly(keys, dicestr)
    ensures errs == ParseErrors(dicestr)
    ensures ParseDiceString(dicestr).Success? ==> errs == []
  {
    var outs :| && errs == ParseErrors(dicestr) + outs + NotRollableErrors(keys, dicestr)
                && Util.NoDuplicates(outs)
                && forall e :: e in outs <==> e in OutOfRangeErrors(keys, dicestr);
    var lo, hi := MinRoll(dicestr), MaxRoll(dicestr);
    Util.WithoutElements(RollRange(lo, hi), keys);
    RollRangeElements(lo, hi);
    Util.WithoutCovered(RollRange(lo, hi), keys);
    assert forall k :: k in keys ==> !Unreachable(k, dicestr);
    assert OutOfRangeErrors(keys, dicestr) == {};
    Util.DistinctCardinality(outs);
    assert (set e | e in outs) == {};
  }

  /**
   * Every uncovered reachable total gets exactly one "not rollable" error,
   * and no other total gets one.
   */
  lemma NotRollableExactlyOnce(keys: set<int>, dicestr: string, x: int)
    ensures NotRollable(x) in NotRollableErrors(keys, dicestr)
        <==> MinRoll(dicestr) <= x <= MaxRoll(dicestr) && x !in keys
    ensures Util.NoDuplicates(NotRollableErrors(keys, dicestr))
  {
    var lo, hi := MinRoll(dicestr), MaxRoll(dicestr);
    var missing := Uncovered(keys, dicestr);
    RollRangeElements(lo, hi);
    Util.WithoutElements(RollRange(lo, hi), keys);
    Util.WithoutNoDuplicates(RollRange(lo, hi), keys);
    var errs := NotRollableErrors(keys, dicestr);
    if NotRollable(x) in errs {
      var i :| 0 <= i < |errs| && errs[i] == NotRollable(x);
      assert missing[i] == x && missing[i] in missing;
    }
    if lo <= x <= hi && x !in keys {
      assert x in missing;
      var i :| 0 <= i < |missing| && missing[i] == x;
      assert errs[i] == NotRollable(x);
    }
  }

  /** Every unreachable key gets exactly one "outside of the dice range" error, and only those. */
  lemma OutsideExactlyOnce(errs: seq<ValidationError>, keys: set<int>, dicestr: string, k: int)
    requires IsValidationReport(errs, keys, dicestr)
    ensures OutsideDiceRange(k) in errs <==> k in keys && Unreachable(k, dicestr)
  {
    var outs :| && errs == ParseErrors(dicestr) + outs + NotRollableErrors(keys, dicestr)
                && forall e :: e in outs <==> e in OutOfRangeErrors(keys, dicestr);
    assert OutsideDiceRange(k) !in ParseErrors(dicestr);
    assert OutsideDiceRange(k) !in NotRollableErrors(keys, dicestr);
  }

  // ---------------------------------------------------------------------------
  // The table
  // ---------------------------------------------------------------------------

  /** The map after `item` is written at each position in turn (a later write wins). */
  function PutAll(m: map<int, string>, pos: seq<int>, item: string): map<int, string>
    decreases |pos|
  {
    if pos == [] then m else PutAll(m[pos[0] := item], pos[1..], item)
  }

  /** Positions that already held an item when `AddItem` reached them (the duplicate warnings). */
  function Overwrites(keys: set<int>, pos: seq<int>): seq<int>
    decreases |pos|
  {
    if pos == [] then []
    else (if pos[0] in keys then [pos[0]] else []) + Overwrites(keys + {pos[0]}, pos[1..])
  }

  /** After AddItem every position holds the item and every other key keeps its item. */
  lemma {:induction false} PutAllSpec(m: map<int, string>, pos: seq<int>, item: string)
    ensures PutAll(m, pos, item).Keys == m.Keys + set x | x in pos
    ensures forall x :: x in pos ==> PutAll(m, pos, item)[x] == item
    ensures forall x :: x in m && x !in pos ==> PutAll(m, pos, item)[x] == m[x]
    decreases |pos|
  {
    if pos != [] {
      PutAllSpec(m[pos[0] := item], pos[1..], item);
      assert forall x :: x in pos <==> x == pos[0] || x in pos[1..];
    }
  }

  /** Writing distinct fresh positions raises no duplicate warning. */
  lemma {:induction false} NoOverwritesWhenFresh(keys: set<int>, pos: seq<int>)
    requires Util.NoDuplicates(pos)
    requires forall x :: x in pos ==> x !in keys
    ensures Overwrites(keys, pos) == []
    decreases |pos|
  {
    if pos != [] {
      assert forall x :: x in pos[1..] ==> x != pos[0] && x in pos;
      NoOverwritesWhenFresh(keys + {pos[0]}, pos[1..]);
    }
  }

  /** Every warning names a position that was written. */
  lemma {:induction false} OverwritesArePositions(keys: set<int>, pos: seq<int>)
    ensures forall x :: x in Overwrites(keys, pos) ==> x in pos
    ensures |Overwrites(keys, pos)| <= |pos|
    decreases |pos|
  {
    if pos != [] {
      OverwritesArePositions(keys + {pos[0]}, pos[1..]);
    }
  }

  /** Position `i` of an `AddItem` call was a key already, or was written earlier in the call. */
  predicate AlreadyWritten(keys: set<int>, pos: seq<int>, i: nat)
    requires i < |pos|
  {
    pos[i] in keys || pos[i] in pos[..i]
  }

  /** Moving past the first position makes it one of the keys. */
  lemma AlreadyWrittenTail(keys: set<int>, pos: seq<int>, i: nat)
    requires 0 < i < |pos|
    ensures AlreadyWritten(keys, pos, i) <==> AlreadyWritten(keys + {pos[0]}, pos[1..], i - 1)
  {
    assert pos[..i] == [pos[0]] + pos[1..][..i - 1];
  }

  /** Every position that was already written is warned about. */
  lemma {:induction false} OverwritesComplete(keys: set<int>, pos: seq<int>, i: nat)
    requires i < |pos| && AlreadyWritten(keys, pos, i)
    ensures pos[i] in Overwrites(keys, pos)
    decreases |pos|
  {
    if i > 0 {
      AlreadyWrittenTail(keys, pos, i);
      OverwritesComplete(keys + {pos[0]}, pos[1..], i - 1);
    }
  }

  /** Every warning is for a position that was already written. */
  lemma {:induction false} OverwritesSound(keys: set<int>, pos: seq<int>, x: int)
    requires x in Overwrites(keys, pos)
    ensures exists i :: 0 <= i < |pos| && pos[i] == x && AlreadyWritten(keys, pos, i)
    decreases |pos|
  {
    if x == pos[0] && pos[0] in keys {
      assert AlreadyWritten(keys, pos, 0);
    } else {
      OverwritesSound(keys + {pos[0]}, pos[1..], x);
      var j :| 0 <= j < |pos[1..]| && pos[1..][j] == x && AlreadyWritten(keys + {pos[0]}, pos[1..], j);
      AlreadyWrittenTail(keys, pos, j + 1);
    }
  }

  /** The warnings are exactly the positions that were keys already or came earlier in the call. */
  lemma OverwritesExactly(keys: set<int>, pos: seq<int>)
    ensures forall x :: x in Overwrites(keys, pos) <==>
              exists i :: 0 <= i < |pos| && pos[i] == x && AlreadyWritten(keys, pos, i)
  {
    forall x | x in Overwrites(keys, pos)
      ensures exists i :: 0 <= i < |pos| && pos[i] == x && AlreadyWritten(keys, pos, i)
    {
      OverwritesSound(keys, pos, x);
    }
    forall i | 0 <= i < |pos| && AlreadyWritten(keys, pos, i)
      ensures pos[i] in Overwrites(keys, pos)
    {
      OverwritesComplete(keys, pos, i);
    }
  }

  /** What GetItem returns for a rolled total: the item there, or "" when the total is unmapped. */
  function ItemAt(items: map<int, string>, total: int): string {
    if total in items then items[total] else ""
  }

  /** A 2d4 table mapping every total from 2 to 8 to "Hello" yields "Hello" for every roll. */
  lemma HelloForEveryRoll(total: int)
    requires 2 <= total <= 8
    ensures ItemAt(PutAll(map[], [2, 3, 4, 5, 6, 7, 8], "Hello"), total) == "Hello"
  {
    PutAllSpec(map[], [2, 3, 4, 5, 6, 7, 8], "Hello");
    assert total in [2, 3, 4, 5, 6, 7, 8];
  }

  /**
   * The length `Validate` passes to `make` for the list of all totals,
   * as the source computes it: negative for a spec such as "2d0".
   */
  function AllRollsLength(dicestr: string): int {
    MaxRoll(dicestr) - MinRoll(dicestr) + 1
  }

  /** "2d0" parses, and the source then asks `make` for a slice of length -1, which panics. */
  lemma AllRollsLengthNegative()
    ensures ParseDiceString("2d0") == Success((2, 0))
    ensures AllRollsLength("2d0") == -1
  {
    ParseDiceRoundTrip(2, 0);
    assert NatToString(2) + "d" + NatToString(0) == "2d0";
  }

  /**
   * The first loop of `Validate`: one "outside" error per unreachable key,
   * visiting the keys in no particular order; also the keys as a list.
   */
  method OutsideAll(keySet: set<int>, dicestr: string) returns (outs: seq<ValidationError>, keys: seq<int>)
    ensures Util.NoDuplicates(outs)
    ensures forall e :: e in outs <==> e in OutOfRangeErrors(keySet, dicestr)
    ensures (set x | x in keys) == keySet
  {
    var lo, hi := MinRoll(dicestr), MaxRoll(dicestr);
    outs, keys := [], [];
    var rest := keySet;
    while rest != {}
      invariant rest <= keySet
      invariant forall k :: k in keys <==> k in keySet - rest
      invariant Util.NoDuplicates(outs)
      invariant forall e :: e in outs <==> e in OutOfRangeErrors(keySet - rest, dicestr)
      decreases rest
    {
      NonEmptyHasElement(rest);
      var k: int :| k in rest;
      ghost var seen := keySet - rest;
      assert OutsideDiceRange(k) !in outs;
      if k < lo || k > hi {
        outs := outs + [OutsideDiceRange(k)];
      }
      keys := keys + [k];
      rest := rest - {k};
      assert keySet - rest == seen + {k};
    }
    assert keySet - rest == keySet;
    assert forall x :: x in keys <==> x in keySet;
  }

  /**
   * The second loop of `Validate`: every total from `lo` to `hi`, in an
   * array of `hi - lo + 1` elements, or none when `hi < lo`.
   */
  method AllRolls(lo: int, hi: int) returns (rolls: seq<int>)
    ensures rolls == RollRange(lo, hi)
  {
    var n := if hi - lo + 1 < 0 then 0 else hi - lo + 1;
    var all := new int[n];
    for i := 0 to n
      invariant forall j :: 0 <= j < i ==> all[j] == lo + j
    {
      all[i] := lo + i;
    }
    RollRangeElements(lo, hi);
    rolls := all[..];
  }

  /** The "not rollable" error of each total, in order (the last loop of `Validate`). */
  method NotRollableAll(totals: seq<int>) returns (errs: seq<ValidationError>)
    ensures |errs| == |totals|
    ensures forall i :: 0 <= i < |totals| ==> errs[i] == NotRollable(totals[i])
  {
    errs := [];
    for i := 0 to |totals|
      invariant |errs| == i
      invariant forall j :: 0 <= j < i ==> errs[j] == NotRollable(totals[j])
    {
      errs := errs + [NotRollable(totals[i])];
    }
  }

  /** A set that is not empty has an element. */
  lemma NonEmptyHasElement(s: set<int>)
    requires s != {}
    ensures exists x :: x in s
  {
    if forall x: int :: x !in s {
      assert false;
    }
  }

  class RollingTable {
    var items: map<int, string>
    var dicestr: string

    /** NewRollingTable (the time-based seed is not modelled). */
    constructor (d: string)
      ensures items == map[] && dicestr == d
    {
      items := map[];
      dicestr := d;
    }

    /** GetItem, given the total the dice library rolled for `dicestr`. */
    method GetItem(total: int) returns (item: string)
      ensures item == ItemAt(items, total)
      ensures total in items ==> item in items.Values
    {
      if total in items {
        item := items[total];
      } else {
        item := "";
      }
    }

    /** AddItem: writes `item` at every position; returns the positions warned about. */
    method AddItem(item: string, pos: seq<int>) returns (warnings: seq<int>)
      modifies this
      ensures items == PutAll(old(items), pos, item)
      ensures warnings == Overwrites(old(items).Keys, pos)
      ensures dicestr == old(dicestr)
    {
      warnings := [];
      for i := 0 to |pos|
        invariant PutAll(items, pos[i..], item) == PutAll(old(items), pos, item)
        invariant dicestr == old(dicestr)
        invariant warnings + Overwrites(items.Keys, pos[i..]) == Overwrites(old(items).Keys, pos)
      {
        var x := pos[i];
        assert pos[i..][0] == x && pos[i..][1..] == pos[i + 1..];
        assert Overwrites(items.Keys, pos[i..])
          == (if x in items.Keys then [x] else []) + Overwrites(items.Keys + {x}, pos[i + 1..]);
        assert items[x := item].Keys == items.Keys + {x};
        if x in items {
          warnings := warnings + [x];
        }
        items := items[x := item];
      }
    }

    /**
     * Validate: the dice parse error, then keys outside [count, count*sides],
     * then totals in that range with no item. An empty range gives no totals.
     */
    method Validate() returns (errs: seq<ValidationError>)
      ensures IsValidationReport(errs, items.Keys, dicestr)
    {
      var pre := ParseErrors(dicestr);
      var lo, hi := MinRoll(dicestr), MaxRoll(dicestr);
      // look for keys that can't be reached, in no particular order
      var outs, keys := OutsideAll(items.Keys, dicestr);
      // all totals that can be rolled
      var allRolls := AllRolls(lo, hi);
      // totals the table is missing
      var diff := Util.Difference(allRolls, keys);
      assert diff == Uncovered(items.Keys, dicestr);
      var missing := NotRollableAll(diff);
      assert missing == NotRollableErrors(items.Keys, dicestr);
      errs := pre + outs + missing;
    }
  }
}
