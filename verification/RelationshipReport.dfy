/** What a validated relationship reports, in terms of the two columns' values. */
module RelationshipReport {
  import opened Domain
  import opened Sets
  import opened Ordering
  import opened Sorting
  import opened Evidence
  import opened RelationshipCounts

  // ---------------------------------------------------------------- values that are there

  /** The positions of the values that are there, in order. */
  ghost predicate PlacesOfValues(values: seq<Raw>, places: seq<nat>) {
    && (forall k :: 0 <= k < |places| ==> places[k] < |values|)
    && (forall k, l :: 0 <= k < l < |places| ==> places[k] < places[l])
    && (forall i: nat :: i < |values| ==> (i in places <==> values[i].Text? && values[i].text != ""))
  }

  ghost predicate ReadFrom(values: seq<Raw>, normalize: Normalizer, places: seq<nat>, read: seq<string>) {
    && |read| == |places| && (forall k :: 0 <= k < |places| ==> places[k] < |values|)
    && forall k :: 0 <= k < |read| ==> values[places[k]].Text? && read[k] == normalize(values[places[k]].text)
  }

  /** Missing and empty values are left out; the others are normalised and stay in order. */
  lemma {:induction false} NormalizedExactly(values: seq<Raw>, normalize: Normalizer) returns (places: seq<nat>)
    ensures PlacesOfValues(values, places) && ReadFrom(values, normalize, places, Normalized(values, normalize))
  {
    places := [];
    if values != [] {
      var n := |values| - 1;
      var before := NormalizedExactly(values[..n], normalize);
      places := before;
      if values[n] != Null && values[n].text != "" { places := before + [n]; }
      forall i: nat | i < |values| ensures i in places <==> values[i].Text? && values[i].text != "" {
        if i < n { assert values[..n][i] == values[i]; }
      }
    }
  }

  // ---------------------------------------------------------------- counts

  /** The rows of the other column that row `i` of this one meets. */
  function Met(one: seq<string>, other: seq<string>, i: nat): set<nat>
    requires i < |one|
  {
    set j: nat | j < |other| && other[j] == one[i]
  }

  lemma OneMoreMet(one: seq<string>, other: seq<string>, i: nat)
    requires i < |one| && other != []
    ensures var n := |other| - 1;
      |Met(one, other, i)| == |Met(one, other[..n], i)| + if other[n] == one[i] then 1 else 0
  {
    var n := |other| - 1;
    assert Met(one, other, i) == Met(one, other[..n], i) + if other[n] == one[i] then {n} else {};
  }

  lemma {:induction false} MetCounted(one: seq<string>, other: seq<string>, i: nat)
    requires i < |one|
    ensures |Met(one, other, i)| == Count(other, one[i])
  {
    if other != [] {
      var n := |other| - 1;
      MetCounted(one, other[..n], i);
      assert other == other[..n] + [other[n]];
      OneMoreMet(one, other, i);
    }
  }

  /** `most` is the largest number of rows of the other column that a row of this one meets. */
  ghost predicate MostMet(one: seq<string>, other: seq<string>, most: nat) {
    && (forall i: nat :: i < |one| ==> |Met(one, other, i)| <= most)
    && (most == 0 || exists i: nat :: i < |one| && |Met(one, other, i)| == most)
  }

  lemma LargestIsMostMet(one: seq<string>, other: seq<string>)
    ensures MostMet(one, other, LargestCount(one, other))
  {
    forall i: nat | i < |one| ensures |Met(one, other, i)| <= LargestCount(one, other) {
      MetCounted(one, other, i);
      LargestBounds(one, other, i);
    }
    if LargestCount(one, other) > 0 {
      var i := LargestIsReached(one, other);
      MetCounted(one, other, i);
    }
  }

  ghost predicate Cardinal(c: Cardinality, fromRowsPerTo: nat, toRowsPerFrom: nat) {
    match c
    case OneToOne => fromRowsPerTo <= 1 && toRowsPerFrom <= 1
    case OneToMany => fromRowsPerTo <= 1 && toRowsPerFrom > 1
    case ManyToOne => fromRowsPerTo > 1 && toRowsPerFrom <= 1
    case ManyToMany => fromRowsPerTo > 1 && toRowsPerFrom > 1
  }

  /** The counts of a report are those of the rows that meet, and its cardinality follows from them. */
  lemma CountsExactly(c: Columns, r: Validation)
    requires Validates(c, r)
    ensures var from, to := Normalized(c.fromValues, c.normalizeFrom), Normalized(c.toValues, c.normalizeTo);
      MostMet(to, from, r.fromRowsPerTo) && MostMet(from, to, r.toRowsPerFrom)
    ensures Cardinal(r.observed, r.fromRowsPerTo, r.toRowsPerFrom)
  {
    var from, to := Normalized(c.fromValues, c.normalizeFrom), Normalized(c.toValues, c.normalizeTo);
    LargestIsMostMet(to, from);
    LargestIsMostMet(from, to);
  }

  // ---------------------------------------------------------------- findings

  /** A value of the child column that is there and has no equal in the parent column. */
  ghost predicate SomeOrphan(c: Columns) {
    exists v :: v in Normalized(c.fromValues, c.normalizeFrom) && v !in Normalized(c.toValues, c.normalizeTo)
  }

  ghost predicate SomeMissing(c: Columns) {
    exists i :: 0 <= i < |c.fromValues| && (c.fromValues[i] == Null || c.fromValues[i].text == "")
  }

  /** Which findings there are, each with its severity and its condition. */
  predicate Due(duplicates: bool, missing: bool, orphans: bool, observed: Cardinality, declared: Cardinality, f: Finding) {
    || (f == Finding("REFERENCED_KEY_NOT_UNIQUE", Blocking) && duplicates)
    || (f == Finding("CHILD_KEY_NULL", Warning) && missing)
    || (f == Finding("ORPHAN_CHILD_ROW", Blocking) && orphans)
    || (f == Finding("CARDINALITY_DRIFT", Blocking) && observed != declared)
    || (f == Finding("GRAIN_CHANGE", Warning) && observed != OneToOne)
    || (f == Finding("MANY_TO_MANY_FANOUT", Blocking) && observed == ManyToMany)
  }

  lemma InEither(xs: seq<Finding>, ys: seq<Finding>, f: Finding)
    ensures f in xs + ys <==> f in xs || f in ys
  {
  }

  lemma FindingsAre(toIsUnique: bool, nulls: bool, orphans: bool, observed: Cardinality, declared: Cardinality, f: Finding)
    ensures f in AllFindings(toIsUnique, nulls, orphans, observed, declared) <==> Due(!toIsUnique, nulls, orphans, observed, declared, f)
  {
    var a, b := When(!toIsUnique, "REFERENCED_KEY_NOT_UNIQUE", Blocking), When(nulls, "CHILD_KEY_NULL", Warning);
    var c, d := When(orphans, "ORPHAN_CHILD_ROW", Blocking), When(observed != declared, "CARDINALITY_DRIFT", Blocking);
    var g, h := When(observed != OneToOne, "GRAIN_CHANGE", Warning), When(observed == ManyToMany, "MANY_TO_MANY_FANOUT", Blocking);
    InEither(a, b, f);
    InEither(a + b, c, f);
    InEither(a + b + c, d, f);
    InEither(a + b + c + d, g, f);
    InEither(a + b + c + d + g, h, f);
  }

  /** A report holds exactly the findings due, in the order of their codes. */
  lemma FindingsExactly(c: Columns, r: Validation)
    requires Validates(c, r)
    ensures forall f :: f in r.findings <==> Due(!c.toIsUnique, SomeMissing(c), SomeOrphan(c), r.observed, c.declared, f)
    ensures forall i, j :: 0 <= i < j < |r.findings| ==> NameLe(r.findings[i].code, r.findings[j].code)
  {
    var from, to := Normalized(c.fromValues, c.normalizeFrom), Normalized(c.toValues, c.normalizeTo);
    var nulls, orphans := |from| < |c.fromValues|, exists v :: v in from && v !in to;
    NormalizedIsShorter(c.fromValues, c.normalizeFrom);
    assert nulls == SomeMissing(c) && orphans == SomeOrphan(c);
    CodeLeIsTotalPreorder();
    SortedFacts(AllFindings(c.toIsUnique, nulls, orphans, r.observed, c.declared), CodeLe);
    SortedKeepsMembers(AllFindings(c.toIsUnique, nulls, orphans, r.observed, c.declared), CodeLe);
    forall f ensures f in r.findings <==> Due(!c.toIsUnique, SomeMissing(c), SomeOrphan(c), r.observed, c.declared, f) {
      FindingsAre(c.toIsUnique, nulls, orphans, r.observed, c.declared, f);
    }
  }

  // ---------------------------------------------------------------- several fan-outs

  predicate Multiplies(r: Validation) {
    r.fromRowsPerTo > 1 || r.toRowsPerFrom > 1
  }

  lemma {:induction false} NoneFansOut(results: seq<Validation>)
    ensures FanoutCount(results) == 0 <==> forall i :: 0 <= i < |results| ==> !Multiplies(results[i])
  {
    if results != [] {
      NoneFansOut(results[..|results| - 1]);
    }
  }

  /** Fan-out is compound exactly when two relationships of the path multiply rows. */
  lemma {:induction false} CompoundExactly(results: seq<Validation>)
    ensures FanoutCount(results) > 1 <==> exists i, j :: 0 <= i < j < |results| && Multiplies(results[i]) && Multiplies(results[j])
  {
    if results != [] {
      var n := |results| - 1;
      NoneFansOut(results[..n]);
      CompoundExactly(results[..n]);
      if Multiplies(results[n]) && FanoutCount(results[..n]) > 0 {
        var i :| 0 <= i < n && Multiplies(results[..n][i]);
        assert Multiplies(results[i]);
      }
      if FanoutCount(results[..n]) > 1 {
        var i, j :| 0 <= i < j < n && Multiplies(results[..n][i]) && Multiplies(results[..n][j]);
        assert Multiplies(results[i]) && Multiplies(results[j]);
      }
    }
  }
}
