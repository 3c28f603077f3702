/** Validating one relationship from value counts, and what the counts say about the join. */
module RelationshipCounts {
  import opened Domain
  import opened Sets
  import opened Evidence
  import opened Ordering
  import opened Sorting

  /** A stored value; an empty text counts as missing. */
  datatype Raw = Null | Text(text: string)

  /** What normalising does to a value of a column's type. */
  type Normalizer = string -> string

  function Normalized(values: seq<Raw>, normalize: Normalizer): seq<string> {
    if values == [] then []
    else
      Normalized(values[..|values| - 1], normalize)
      + (var last := values[|values| - 1]; if last == Null || last.text == "" then [] else [normalize(last.text)])
  }

  function Count(xs: seq<string>, v: string): nat {
    multiset(xs)[v]
  }

  /** The largest number of times one of `over` occurs in `counted`; zero when none does. */
  function LargestCount(over: seq<string>, counted: seq<string>): nat {
    if over == [] then 0
    else
      var rest, last := LargestCount(over[..|over| - 1], counted), Count(counted, over[|over| - 1]);
      if last > rest then last else rest
  }

  function Orphans(from: seq<string>, to: seq<string>): nat {
    if from == [] then 0 else Orphans(from[..|from| - 1], to) + if from[|from| - 1] in to then 0 else 1
  }

  datatype Validation = Validation(observed: Cardinality, fromRowsPerTo: nat, toRowsPerFrom: nat, findings: seq<Finding>)

  function Codes(findings: seq<Finding>): set<string> {
    set f | f in findings :: f.code
  }

  function AllFindings(toIsUnique: bool, nulls: bool, orphans: bool, observed: Cardinality, declared: Cardinality): seq<Finding> {
    When(!toIsUnique, "REFERENCED_KEY_NOT_UNIQUE", Blocking)
    + When(nulls, "CHILD_KEY_NULL", Warning)
    + When(orphans, "ORPHAN_CHILD_ROW", Blocking)
    + When(observed != declared, "CARDINALITY_DRIFT", Blocking)
    + When(observed != OneToOne, "GRAIN_CHANGE", Warning)
    + When(observed == ManyToMany, "MANY_TO_MANY_FANOUT", Blocking)
  }

  /** A relationship with the values of its two columns. */
  datatype Columns = Columns(
    fromValues: seq<Raw>,
    toValues: seq<Raw>,
    normalizeFrom: Normalizer,
    normalizeTo: Normalizer,
    toIsUnique: bool,
    declared: Cardinality)

  ghost predicate Validates(c: Columns, r: Validation) {
    var from, to := Normalized(c.fromValues, c.normalizeFrom), Normalized(c.toValues, c.normalizeTo);
    && r.fromRowsPerTo == LargestCount(to, from) && r.toRowsPerFrom == LargestCount(from, to)
    && r.observed == ObservedCardinality(r.fromRowsPerTo, r.toRowsPerFrom)
    && r.findings == Sorted(AllFindings(c.toIsUnique, |from| < |c.fromValues|, exists v :: v in from && v !in to, r.observed, c.declared), CodeLe)
  }

  method ValidateRelationship(c: Columns) returns (r: Validation)
    ensures Validates(c, r)
  {
    var from, to := Normalized(c.fromValues, c.normalizeFrom), Normalized(c.toValues, c.normalizeTo);
    OrphansExactly(from, to);
    NormalizedIsShorter(c.fromValues, c.normalizeFrom);
    var fromRowsPerTo, toRowsPerFrom := LargestCount(to, from), LargestCount(from, to);
    var observed := ObservedCardinality(fromRowsPerTo, toRowsPerFrom);
    var findings := CollectFindings(c.toIsUnique, |c.fromValues| - |from|, Orphans(from, to), observed, c.declared);
    r := Validation(observed, fromRowsPerTo, toRowsPerFrom, findings);
  }

  method Append(findings: seq<Finding>, condition: bool, code: string, severity: Severity) returns (r: seq<Finding>)
    ensures r == findings + When(condition, code, severity)
  {
    r := findings;
    if condition {
      r := r + [Finding(code, severity)];
    }
  }

  method CollectFindings(toIsUnique: bool, nullCount: nat, orphanCount: nat, observed: Cardinality, declared: Cardinality)
    returns (r: seq<Finding>)
    ensures r == Sorted(AllFindings(toIsUnique, nullCount != 0, orphanCount != 0, observed, declared), CodeLe)
  {
    var findings := Append([], !toIsUnique, "REFERENCED_KEY_NOT_UNIQUE", Blocking);
    assert findings == When(!toIsUnique, "REFERENCED_KEY_NOT_UNIQUE", Blocking);
    findings := Append(findings, nullCount != 0, "CHILD_KEY_NULL", Warning);
    findings := Append(findings, orphanCount != 0, "ORPHAN_CHILD_ROW", Blocking);
    findings := Append(findings, observed != declared, "CARDINALITY_DRIFT", Blocking);
    findings := Append(findings, observed != OneToOne, "GRAIN_CHANGE", Warning);
    findings := Append(findings, observed == ManyToMany, "MANY_TO_MANY_FANOUT", Blocking);
    r := Sorted(findings, CodeLe);
  }

  function CodeIf(condition: bool, code: string): set<string> {
    if condition then {code} else {}
  }

  lemma CodesAppend(xs: seq<Finding>, condition: bool, code: string, severity: Severity)
    ensures Codes(xs + When(condition, code, severity)) == Codes(xs) + CodeIf(condition, code)
  {
    var ys := xs + When(condition, code, severity);
    assert forall f :: f in ys <==> f in xs || (condition && f == Finding(code, severity));
    if condition {
      assert Finding(code, severity) in ys;
    }
  }

  lemma CodesSorted(findings: seq<Finding>)
    ensures Codes(Sorted(findings, CodeLe)) == Codes(findings) && Ordered(Sorted(findings, CodeLe), CodeLe)
  {
    CodeLeIsTotalPreorder();
    SortedFacts(findings, CodeLe);
    SortedKeepsMembers(findings, CodeLe);
  }

  lemma ThreeMore(xs: seq<Finding>, a: bool, b: bool, c: bool, codeA: string, codeB: string, codeC: string, x: Severity, y: Severity, z: Severity)
    ensures Codes(xs + When(a, codeA, x) + When(b, codeB, y) + When(c, codeC, z))
      == Codes(xs) + CodeIf(a, codeA) + CodeIf(b, codeB) + CodeIf(c, codeC)
  {
    CodesAppend(xs, a, codeA, x);
    CodesAppend(xs + When(a, codeA, x), b, codeB, y);
    CodesAppend(xs + When(a, codeA, x) + When(b, codeB, y), c, codeC, z);
  }

  lemma FirstThree(duplicates: bool, nulls: bool, orphans: bool)
    ensures Codes(When(duplicates, "REFERENCED_KEY_NOT_UNIQUE", Blocking) + When(nulls, "CHILD_KEY_NULL", Warning)
                  + When(orphans, "ORPHAN_CHILD_ROW", Blocking))
      == CodeIf(duplicates, "REFERENCED_KEY_NOT_UNIQUE") + CodeIf(nulls, "CHILD_KEY_NULL") + CodeIf(orphans, "ORPHAN_CHILD_ROW")
  {
    var none: seq<Finding> := [];
    assert none + When(duplicates, "REFERENCED_KEY_NOT_UNIQUE", Blocking) == When(duplicates, "REFERENCED_KEY_NOT_UNIQUE", Blocking);
    ThreeMore(none, duplicates, nulls, orphans, "REFERENCED_KEY_NOT_UNIQUE", "CHILD_KEY_NULL", "ORPHAN_CHILD_ROW", Blocking, Warning, Blocking);
  }

  /** Each code is reported exactly under its own condition, and the codes come in order. */
  lemma CodesExactly(toIsUnique: bool, nulls: bool, orphans: bool, observed: Cardinality, declared: Cardinality)
    ensures var findings := Sorted(AllFindings(toIsUnique, nulls, orphans, observed, declared), CodeLe);
      && Ordered(findings, CodeLe)
      && Codes(findings) == CodeIf(!toIsUnique, "REFERENCED_KEY_NOT_UNIQUE") + CodeIf(nulls, "CHILD_KEY_NULL")
           + CodeIf(orphans, "ORPHAN_CHILD_ROW") + CodeIf(observed != declared, "CARDINALITY_DRIFT")
           + CodeIf(observed != OneToOne, "GRAIN_CHANGE") + CodeIf(observed == ManyToMany, "MANY_TO_MANY_FANOUT")
  {
    CodesSorted(AllFindings(toIsUnique, nulls, orphans, observed, declared));
    var half := When(!toIsUnique, "REFERENCED_KEY_NOT_UNIQUE", Blocking) + When(nulls, "CHILD_KEY_NULL", Warning)
      + When(orphans, "ORPHAN_CHILD_ROW", Blocking);
    FirstThree(!toIsUnique, nulls, orphans);
    ThreeMore(half, observed != declared, observed != OneToOne, observed == ManyToMany,
              "CARDINALITY_DRIFT", "GRAIN_CHANGE", "MANY_TO_MANY_FANOUT", Blocking, Warning, Blocking);
  }

  lemma {:induction false} OrphansExactly(from: seq<string>, to: seq<string>)
    ensures Orphans(from, to) != 0 <==> exists v :: v in from && v !in to
  {
    if from != [] {
      OrphansExactly(from[..|from| - 1], to);
      assert from == from[..|from| - 1] + [from[|from| - 1]];
    }
  }

  lemma {:induction false} NormalizedIsShorter(values: seq<Raw>, normalize: Normalizer)
    ensures |Normalized(values, normalize)| <= |values|
    ensures |Normalized(values, normalize)| == |values| <==> forall i :: 0 <= i < |values| ==> values[i] != Null && values[i].text != ""
  {
    if values != [] {
      NormalizedIsShorter(values[..|values| - 1], normalize);
    }
  }

  // ---------------------------------------------------------------- the join the counts describe

  /** Pairs of positions an inner join on the normalised values would return. */
  function JoinPairs(from: seq<string>, to: seq<string>): set<(nat, nat)> {
    set i, j | 0 <= i < |from| && 0 <= j < |to| && from[i] == to[j] :: (i, j)
  }

  /** The matches of each referencing row, added up. */
  function JoinSize(from: seq<string>, to: seq<string>): nat {
    if from == [] then 0 else JoinSize(from[..|from| - 1], to) + Count(to, from[|from| - 1])
  }

  function MatchesOf(i: nat, v: string, to: seq<string>): set<(nat, nat)> {
    set j | 0 <= j < |to| && to[j] == v :: (i, j)
  }

  lemma {:induction false} MatchesCounted(i: nat, v: string, to: seq<string>)
    ensures |MatchesOf(i, v, to)| == Count(to, v)
  {
    if to != [] {
      var n := |to| - 1;
      MatchesCounted(i, v, to[..n]);
      assert to == to[..n] + [to[n]];
      if to[n] == v {
        assert MatchesOf(i, v, to) == MatchesOf(i, v, to[..n]) + {(i, n)};
      } else {
        assert MatchesOf(i, v, to) == MatchesOf(i, v, to[..n]);
      }
    }
  }

  lemma {:induction false} JoinRowByRow(from: seq<string>, to: seq<string>)
    ensures |JoinPairs(from, to)| == JoinSize(from, to)
  {
    if from != [] {
      var n := |from| - 1;
      JoinRowByRow(from[..n], to);
      MatchesCounted(n, from[n], to);
      assert JoinPairs(from, to) == JoinPairs(from[..n], to) + MatchesOf(n, from[n], to);
    }
  }

  ghost predicate AllDifferent(values: seq<string>) {
    forall i, j :: 0 <= i < j < |values| ==> values[i] != values[j]
  }

  /** The products of the two counts, added up over these values. */
  function SumOfProducts(values: seq<string>, from: seq<string>, to: seq<string>): nat {
    if values == [] then 0
    else SumOfProducts(values[..|values| - 1], from, to) + Count(from, values[|values| - 1]) * Count(to, values[|values| - 1])
  }

  function PairsAt(v: string, from: seq<string>, to: seq<string>): set<(nat, nat)> {
    set i, j | 0 <= i < |from| && 0 <= j < |to| && from[i] == v && to[j] == v :: (i, j)
  }

  lemma OneRowMore(v: string, from: seq<string>, to: seq<string>)
    requires from != []
    ensures var n := |from| - 1;
      PairsAt(v, from, to) == PairsAt(v, from[..n], to) + if from[n] == v then MatchesOf(n, v, to) else {}
    ensures PairsAt(v, from[..|from| - 1], to) !! MatchesOf(|from| - 1, v, to)
    ensures Count(from, v) == Count(from[..|from| - 1], v) + if from[|from| - 1] == v then 1 else 0
  {
    assert from == from[..|from| - 1] + [from[|from| - 1]];
  }

  lemma OneMoreTimes(a: nat, b: nat)
    ensures (a + 1) * b == a * b + b
  {
  }

  lemma {:induction false} PairsAtCounted(v: string, from: seq<string>, to: seq<string>)
    ensures |PairsAt(v, from, to)| == Count(from, v) * Count(to, v)
  {
    if from != [] {
      var n := |from| - 1;
      PairsAtCounted(v, from[..n], to);
      MatchesCounted(n, v, to);
      OneRowMore(v, from, to);
      OneMoreTimes(Count(from[..n], v), Count(to, v));
    }
  }

  function PairsAmong(values: seq<string>, from: seq<string>, to: seq<string>): set<(nat, nat)> {
    set i, j | 0 <= i < |from| && 0 <= j < |to| && from[i] == to[j] && from[i] in values :: (i, j)
  }

  lemma {:induction false} PairsAmongCounted(values: seq<string>, from: seq<string>, to: seq<string>)
    requires AllDifferent(values)
    ensures |PairsAmong(values, from, to)| == SumOfProducts(values, from, to)
  {
    if values != [] {
      var n := |values| - 1;
      PairsAmongCounted(values[..n], from, to);
      PairsAtCounted(values[n], from, to);
      assert values == values[..n] + [values[n]] && values[n] !in values[..n];
      assert PairsAmong(values, from, to) == PairsAmong(values[..n], from, to) + PairsAt(values[n], from, to);
    }
  }

  /** The number of joined rows is the sum, over the distinct values that occur on both sides, of the
      products of the two counts. */
  lemma JoinCounted(from: seq<string>, to: seq<string>, values: seq<string>)
    requires AllDifferent(values) && forall v :: v in from && v in to ==> v in values
    ensures |JoinPairs(from, to)| == SumOfProducts(values, from, to)
  {
    PairsAmongCounted(values, from, to);
    assert JoinPairs(from, to) == PairsAmong(values, from, to);
  }

  lemma {:induction false} LargestBounds(over: seq<string>, counted: seq<string>, i: nat)
    requires i < |over|
    ensures Count(counted, over[i]) <= LargestCount(over, counted)
  {
    if i < |over| - 1 {
      LargestBounds(over[..|over| - 1], counted, i);
    }
  }

  lemma {:induction false} LargestIsReached(over: seq<string>, counted: seq<string>) returns (i: nat)
    requires LargestCount(over, counted) > 0
    ensures i < |over| && Count(counted, over[i]) == LargestCount(over, counted)
  {
    var n := |over| - 1;
    if Count(counted, over[n]) == LargestCount(over, counted) {
      i := n;
    } else {
      i := LargestIsReached(over[..n], counted);
    }
  }

  lemma {:induction false} SizeBelow(from: seq<string>, to: seq<string>, most: nat)
    requires forall i :: 0 <= i < |from| ==> Count(to, from[i]) <= most
    ensures JoinSize(from, to) <= |from| * most
  {
    if from != [] {
      var n := |from| - 1;
      SizeBelow(from[..n], to, most);
      assert |from| * most == n * most + most;
    }
  }

  lemma {:induction false} MirroredSize(pairs: set<(nat, nat)>, mirrored: set<(nat, nat)>)
    requires forall p :: p in pairs <==> (p.1, p.0) in mirrored
    ensures |pairs| == |mirrored|
  {
    if pairs == {} {
      forall q ensures q !in mirrored {
        assert (q.1, q.0) !in pairs;
      }
    } else {
      var p :| p in pairs;
      var q := (p.1, p.0);
      forall x ensures x in pairs - {p} <==> (x.1, x.0) in mirrored - {q} {
        assert (x.1, x.0) == q <==> x == p;
      }
      MirroredSize(pairs - {p}, mirrored - {q});
    }
  }

  lemma JoinIsSymmetric(from: seq<string>, to: seq<string>)
    ensures |JoinPairs(from, to)| == |JoinPairs(to, from)|
  {
    MirroredSize(JoinPairs(from, to), JoinPairs(to, from));
  }

  /** The join is no larger than either side times the rows it may meet on the other. */
  lemma CountsBoundJoin(from: seq<string>, to: seq<string>)
    ensures |JoinPairs(from, to)| <= |from| * LargestCount(from, to)
    ensures |JoinPairs(from, to)| <= |to| * LargestCount(to, from)
  {
    JoinIsSymmetric(from, to);
    JoinRowByRow(from, to);
    JoinRowByRow(to, from);
    forall i | 0 <= i < |from| ensures Count(to, from[i]) <= LargestCount(from, to) {
      LargestBounds(from, to, i);
    }
    forall i | 0 <= i < |to| ensures Count(from, to[i]) <= LargestCount(to, from) {
      LargestBounds(to, from, i);
    }
    SizeBelow(from, to, LargestCount(from, to));
    SizeBelow(to, from, LargestCount(to, from));
  }

  lemma {:induction false} DifferentCountOnce(values: seq<string>, v: string)
    requires AllDifferent(values)
    ensures Count(values, v) == if v in values then 1 else 0
  {
    if values != [] {
      var n := |values| - 1;
      DifferentCountOnce(values[..n], v);
      assert values == values[..n] + [values[n]];
      assert values[n] !in values[..n];
    }
  }

  lemma {:induction false} SizeWithUniqueKey(from: seq<string>, to: seq<string>)
    requires AllDifferent(to)
    ensures JoinSize(from, to) + Orphans(from, to) == |from|
  {
    if from != [] {
      SizeWithUniqueKey(from[..|from| - 1], to);
      DifferentCountOnce(to, from[|from| - 1]);
    }
  }

  /** With a unique referenced key the join holds one row for each non-null child row that is no
      orphan; so it holds as many rows as there are non-null child rows exactly when none is one. */
  lemma UniqueKeyJoinSize(from: seq<string>, to: seq<string>)
    requires AllDifferent(to)
    ensures |JoinPairs(from, to)| == |from| - Orphans(from, to)
    ensures |JoinPairs(from, to)| == |from| <==> forall v :: v in from ==> v in to
  {
    JoinRowByRow(from, to);
    SizeWithUniqueKey(from, to);
    OrphansExactly(from, to);
  }

  /** No referencing row meets two referenced rows. */
  ghost predicate AtMostOneMatch(from: seq<string>, to: seq<string>) {
    forall i, j, k :: 0 <= i < |from| && 0 <= j < |to| && 0 <= k < |to| && from[i] == to[j] && from[i] == to[k] ==> j == k
  }

  /** A reported bound of one means exactly that no row is multiplied. */
  lemma BoundOfOneExactly(from: seq<string>, to: seq<string>)
    ensures LargestCount(from, to) <= 1 <==> AtMostOneMatch(from, to)
  {
    if LargestCount(from, to) > 1 {
      var i := LargestIsReached(from, to);
      OccursTwice(to, from[i]);
      var j, k :| 0 <= j < k < |to| && to[j] == from[i] && to[k] == from[i];
    }
    if LargestCount(from, to) <= 1 {
      forall i, j, k | 0 <= i < |from| && 0 <= j < |to| && 0 <= k < |to| && from[i] == to[j] && from[i] == to[k] ensures j == k {
        LargestBounds(from, to, i);
        OccursTwice(to, from[i]);
      }
    }
  }

  // ---------------------------------------------------------------- a path of relationships

  predicate FansOut(v: Validation) {
    v.fromRowsPerTo > 1 || v.toRowsPerFrom > 1
  }

  function FanoutCount(results: seq<Validation>): nat {
    if results == [] then 0 else FanoutCount(results[..|results| - 1]) + if FansOut(results[|results| - 1]) then 1 else 0
  }

  /** The severity that goes with a code. */
  function SeverityOf(code: string): Severity {
    if code == "CHILD_KEY_NULL" || code == "GRAIN_CHANGE" then Warning else Blocking
  }

  ghost predicate Standard(findings: seq<Finding>) {
    forall f :: f in findings ==> f.severity == SeverityOf(f.code)
  }

  lemma StandardAppend(xs: seq<Finding>, condition: bool, code: string, severity: Severity)
    requires Standard(xs) && severity == SeverityOf(code)
    ensures Standard(xs + When(condition, code, severity))
  {
  }

  lemma AllFindingsStandard(toIsUnique: bool, nulls: bool, orphans: bool, observed: Cardinality, declared: Cardinality)
    ensures Standard(AllFindings(toIsUnique, nulls, orphans, observed, declared))
  {
    var a := When(!toIsUnique, "REFERENCED_KEY_NOT_UNIQUE", Blocking);
    assert Standard(a) by { assert |"REFERENCED_KEY_NOT_UNIQUE"| != |"CHILD_KEY_NULL"| && |"REFERENCED_KEY_NOT_UNIQUE"| != |"GRAIN_CHANGE"|; }
    var b := a + When(nulls, "CHILD_KEY_NULL", Warning);
    StandardAppend(a, nulls, "CHILD_KEY_NULL", Warning);
    var c := b + When(orphans, "ORPHAN_CHILD_ROW", Blocking);
    assert |"ORPHAN_CHILD_ROW"| != |"CHILD_KEY_NULL"| && |"ORPHAN_CHILD_ROW"| != |"GRAIN_CHANGE"|;
    StandardAppend(b, orphans, "ORPHAN_CHILD_ROW", Blocking);
    var d := c + When(observed != declared, "CARDINALITY_DRIFT", Blocking);
    assert |"CARDINALITY_DRIFT"| != |"CHILD_KEY_NULL"| && |"CARDINALITY_DRIFT"| != |"GRAIN_CHANGE"|;
    StandardAppend(c, observed != declared, "CARDINALITY_DRIFT", Blocking);
    var e := d + When(observed != OneToOne, "GRAIN_CHANGE", Warning);
    StandardAppend(d, observed != OneToOne, "GRAIN_CHANGE", Warning);
    assert |"MANY_TO_MANY_FANOUT"| != |"CHILD_KEY_NULL"| && |"MANY_TO_MANY_FANOUT"| != |"GRAIN_CHANGE"|;
    StandardAppend(e, observed == ManyToMany, "MANY_TO_MANY_FANOUT", Blocking);
  }

  lemma ValidatesStandard(c: Columns, r: Validation)
    requires Validates(c, r)
    ensures Standard(r.findings)
  {
    var from, to := Normalized(c.fromValues, c.normalizeFrom), Normalized(c.toValues, c.normalizeTo);
    var nulls, orphans := |from| < |c.fromValues|, exists v :: v in from && v !in to;
    AllFindingsStandard(c.toIsUnique, nulls, orphans, r.observed, c.declared);
    CodeLeIsTotalPreorder();
    SortedKeepsMembers(AllFindings(c.toIsUnique, nulls, orphans, r.observed, c.declared), CodeLe);
  }

  /** Assigning to a dictionary by code: an entry of that code is replaced in its place. */
  function Assigned(entries: seq<Finding>, f: Finding): seq<Finding> {
    if f.code in Codes(entries)
    then seq(|entries|, i requires 0 <= i < |entries| => if entries[i].code == f.code then f else entries[i])
    else entries + [f]
  }

  /** A dictionary of findings: one entry for each code, each with the severity of its code. */
  ghost predicate ByCode(entries: seq<Finding>) {
    |Codes(entries)| == |entries| && Standard(entries)
  }

  lemma AssignedKeeps(entries: seq<Finding>, f: Finding)
    requires ByCode(entries) && f.severity == SeverityOf(f.code)
    ensures ByCode(Assigned(entries, f)) && forall g :: g in Assigned(entries, f) <==> g in entries || g == f
  {
    var r := Assigned(entries, f);
    if f.code in Codes(entries) {
      var g :| g in entries && g.code == f.code;
      assert g == f;
      forall i | 0 <= i < |entries| ensures r[i] == entries[i] {
        assert entries[i] in entries;
      }
      assert r == entries;
    } else {
      assert Codes(r) == Codes(entries) + {f.code};
    }
  }

  /** Every finding of some relationship. */
  ghost predicate Found(results: seq<Validation>, f: Finding) {
    exists i :: 0 <= i < |results| && f in results[i].findings
  }

  method Merge(entries: seq<Finding>, findings: seq<Finding>) returns (merged: seq<Finding>)
    requires ByCode(entries) && Standard(findings)
    ensures ByCode(merged) && forall f :: f in merged <==> f in entries || f in findings
  {
    merged := entries;
    for k := 0 to |findings|
      invariant ByCode(merged) && forall f :: f in merged <==> f in entries || f in findings[..k]
    {
      assert findings[..k + 1] == findings[..k] + [findings[k]];
      AssignedKeeps(merged, findings[k]);
      merged := Assigned(merged, findings[k]);
    }
    assert findings[..|findings|] == findings;
  }

  method Report(entries: seq<Finding>, compound: bool) returns (findings: seq<Finding>)
    requires ByCode(entries)
    ensures Ordered(findings, CodeLe) && |Codes(findings)| == |findings|
    ensures forall f :: f in findings <==> f in entries || (f == Finding("COMPOUND_FANOUT", Blocking) && compound)
  {
    findings := entries;
    if compound {
      assert |"COMPOUND_FANOUT"| != |"CHILD_KEY_NULL"| && |"COMPOUND_FANOUT"| != |"GRAIN_CHANGE"|;
      AssignedKeeps(entries, Finding("COMPOUND_FANOUT", Blocking));
      findings := Assigned(entries, Finding("COMPOUND_FANOUT", Blocking));
    }
    CodesSorted(findings);
    SortedKeeps(findings);
    findings := Sorted(findings, CodeLe);
  }

  ghost predicate AllValidate(path: seq<Columns>, results: seq<Validation>) {
    |results| == |path| && forall i :: 0 <= i < |path| ==> Validates(path[i], results[i])
  }

  ghost predicate Collects(entries: seq<Finding>, results: seq<Validation>) {
    ByCode(entries) && forall f :: f in entries <==> Found(results, f)
  }

  lemma FoundOneMore(results: seq<Validation>, r: Validation, f: Finding)
    ensures Found(results + [r], f) <==> Found(results, f) || f in r.findings
  {
    var longer := results + [r];
    if i :| 0 <= i < |results| && f in results[i].findings {
      assert longer[i] == results[i];
    }
    if f in r.findings {
      assert longer[|results|] == r;
    }
  }

  lemma OneMoreResult(path: seq<Columns>, n: nat, results: seq<Validation>, r: Validation)
    requires n < |path| && AllValidate(path[..n], results) && Validates(path[n], r)
    ensures AllValidate(path[..n + 1], results + [r])
    ensures FanoutCount(results + [r]) == FanoutCount(results) + if FansOut(r) then 1 else 0
    ensures forall f :: Found(results + [r], f) <==> Found(results, f) || f in r.findings
  {
    assert (results + [r])[..n] == results;
    forall f ensures Found(results + [r], f) <==> Found(results, f) || f in r.findings {
      FoundOneMore(results, r, f);
    }
  }

  method ValidateOneMore(path: seq<Columns>, n: nat, results: seq<Validation>, entries: seq<Finding>)
    returns (longer: seq<Validation>, merged: seq<Finding>, fans: bool)
    requires n < |path| && AllValidate(path[..n], results) && Collects(entries, results)
    ensures AllValidate(path[..n + 1], longer) && Collects(merged, longer)
    ensures FanoutCount(longer) == FanoutCount(results) + if fans then 1 else 0
  {
    var r := ValidateRelationship(path[n]);
    ValidatesStandard(path[n], r);
    merged := Merge(entries, r.findings);
    OneMoreResult(path, n, results, r);
    longer, fans := results + [r], FansOut(r);
  }

  /** All relationships of a path: the findings are those of the single relationships, one more when
      several of them fan out, each code once and in order. */
  method ValidatePath(path: seq<Columns>) returns (results: seq<Validation>, findings: seq<Finding>)
    ensures AllValidate(path, results)
    ensures Ordered(findings, CodeLe) && |Codes(findings)| == |findings|
    ensures forall f :: f in findings <==>
      Found(results, f) || (f == Finding("COMPOUND_FANOUT", Blocking) && FanoutCount(results) > 1)
  {
    results := [];
    var entries: seq<Finding> := [];
    var fanouts := 0;
    for n := 0 to |path|
      invariant AllValidate(path[..n], results) && Collects(entries, results) && fanouts == FanoutCount(results)
    {
      var fans;
      results, entries, fans := ValidateOneMore(path, n, results, entries);
      fanouts := fanouts + if fans then 1 else 0;
    }
    assert path[..|path|] == path;
    findings := Report(entries, fanouts > 1);
  }

  lemma SortedKeeps(findings: seq<Finding>)
    ensures |Sorted(findings, CodeLe)| == |findings| && forall f :: f in Sorted(findings, CodeLe) <==> f in findings
  {
    CodeLeIsTotalPreorder();
    SortedFacts(findings, CodeLe);
    SortedKeepsMembers(findings, CodeLe);
  }
}
