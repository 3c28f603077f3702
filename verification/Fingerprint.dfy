/** The byte stream a source fingerprint hashes: order-independent and injective. */
module Fingerprint {
  import opened Domain
  import opened Ordering
  import opened Sorting

  /** Bytes are kept as characters below 256, so that encoded paths compare as names do. */
  type Byte = c: char | c < 256 as char
  type Bytes = seq<Byte>

  /** A path in its encoded form, and a digest as the bytes its hexadecimal text stands for. */
  datatype Entry = Entry(path: Bytes, size: int, digest: Bytes)

  const PREFIX: Bytes := "joinlint-source-v1"
  const LENGTH_BYTES := 8
  const DIGEST_BYTES := 32

  // ---------------------------------------------------------------- fixed-width integers

  function Bound(width: nat): nat {
    if width == 0 then 1 else 256 * Bound(width - 1)
  }

  function BigEndian(n: nat, width: nat): (r: Bytes)
    ensures |r| == width
  {
    if width == 0 then [] else BigEndian(n / 256, width - 1) + [(n % 256) as char]
  }

  function Value(bytes: Bytes): nat {
    if bytes == [] then 0 else 256 * Value(bytes[..|bytes| - 1]) + bytes[|bytes| - 1] as nat
  }

  /** Reading back what was written, as long as it fits. */
  lemma {:induction false} ValueOfBigEndian(n: nat, width: nat)
    requires n < Bound(width)
    ensures Value(BigEndian(n, width)) == n
  {
    if width > 0 {
      ValueOfBigEndian(n / 256, width - 1);
      assert BigEndian(n, width)[..width - 1] == BigEndian(n / 256, width - 1);
    }
  }

  predicate Fits(n: int) {
    0 <= n < Bound(LENGTH_BYTES)
  }

  // ---------------------------------------------------------------- the stream

  function EntryBytes(e: Entry): Bytes
    requires Fits(|e.path|) && Fits(e.size)
  {
    BigEndian(|e.path|, LENGTH_BYTES) + e.path + BigEndian(e.size, LENGTH_BYTES) + e.digest
  }

  predicate Encodable(entries: seq<Entry>) {
    forall i :: 0 <= i < |entries| ==> Fits(|entries[i].path|) && Fits(entries[i].size)
  }

  function Stream(entries: seq<Entry>): Bytes
    requires Encodable(entries)
  {
    if entries == [] then [] else Stream(entries[..|entries| - 1]) + EntryBytes(entries[|entries| - 1])
  }

  predicate PathLe(a: Entry, b: Entry) {
    NameLe(a.path, b.path)
  }

  /** Sorting by path, then feeding the hash piece by piece. */
  method HashInput(entries: seq<Entry>) returns (r: Result<Bytes>)
    ensures r.Ok? <==> Encodable(entries)
    ensures r.Ok? ==> Encodable(Sorted(entries, PathLe)) && r.value == PREFIX + Stream(Sorted(entries, PathLe))
    ensures r.Err? ==> r.code == "OverflowError"
  {
    var ordered := Sorted(entries, PathLe);
    SortedEncodable(entries);
    var fed := PREFIX;
    for i := 0 to |ordered|
      invariant Encodable(ordered[..i]) && fed == PREFIX + Stream(ordered[..i])
    {
      var e := ordered[i];
      if !Fits(|e.path|) || !Fits(e.size) {
        return Err("OverflowError");
      }
      StreamGrows(ordered, i);
      FedTogether(fed, BigEndian(|e.path|, LENGTH_BYTES), e.path, BigEndian(e.size, LENGTH_BYTES), e.digest);
      FedAfter(PREFIX, Stream(ordered[..i]), EntryBytes(e));
      fed := fed + BigEndian(|e.path|, LENGTH_BYTES);
      fed := fed + e.path;
      fed := fed + BigEndian(e.size, LENGTH_BYTES);
      fed := fed + e.digest;
    }
    assert ordered[..|ordered|] == ordered;
    return Ok(fed);
  }

  lemma StreamGrows(entries: seq<Entry>, i: nat)
    requires i < |entries| && Encodable(entries[..i])
    requires Fits(|entries[i].path|) && Fits(entries[i].size)
    ensures Encodable(entries[..i + 1])
    ensures Stream(entries[..i + 1]) == Stream(entries[..i]) + EntryBytes(entries[i])
  {
    var longer := entries[..i + 1];
    assert longer[..i] == entries[..i];
  }

  /** Feeding four pieces one after the other is feeding them joined. */
  lemma FedTogether(before: Bytes, a: Bytes, b: Bytes, c: Bytes, d: Bytes)
    ensures before + a + b + c + d == before + (a + b + c + d)
  {
  }

  lemma FedAfter(prefix: Bytes, stream: Bytes, more: Bytes)
    ensures prefix + stream + more == prefix + (stream + more)
  {
  }

  lemma PathLeIsTotalPreorder()
    ensures TotalPreorder(PathLe)
  {
    NameLeIsTotalOrder();
  }

  lemma SortedEncodable(entries: seq<Entry>)
    ensures Encodable(Sorted(entries, PathLe)) <==> Encodable(entries)
  {
    var ordered := Sorted(entries, PathLe);
    PathLeIsTotalPreorder();
    SortedFacts(entries, PathLe);
    if Encodable(entries) {
      forall i | 0 <= i < |ordered| ensures Fits(|ordered[i].path|) && Fits(ordered[i].size) {
        assert ordered[i] in multiset(entries);
      }
    }
    if Encodable(ordered) {
      forall i | 0 <= i < |entries| ensures Fits(|entries[i].path|) && Fits(entries[i].size) {
        assert entries[i] in multiset(ordered);
      }
    }
  }

  // ---------------------------------------------------------------- injectivity

  ghost predicate Digested(entries: seq<Entry>) {
    forall i :: 0 <= i < |entries| ==> |entries[i].digest| == DIGEST_BYTES
  }

  /** The stream read from the front: entries are cut off one by one. */
  function Forward(entries: seq<Entry>): Bytes
    requires Encodable(entries)
  {
    if entries == [] then [] else EntryBytes(entries[0]) + Forward(entries[1..])
  }

  lemma AppendEncodable(entries: seq<Entry>, last: Entry)
    requires Encodable(entries) && Fits(|last.path|) && Fits(last.size)
    ensures Encodable(entries + [last])
  {
  }

  lemma {:induction false} ForwardAppend(entries: seq<Entry>, last: Entry)
    requires Encodable(entries) && Fits(|last.path|) && Fits(last.size)
    ensures Encodable(entries + [last]) && Forward(entries + [last]) == Forward(entries) + EntryBytes(last)
  {
    AppendEncodable(entries, last);
    if entries == [] {
      assert [last][1..] == [];
    } else {
      ForwardAppend(entries[1..], last);
      assert (entries + [last])[1..] == entries[1..] + [last];
      FedAfter(EntryBytes(entries[0]), Forward(entries[1..]), EntryBytes(last));
    }
  }

  lemma {:induction false} StreamIsForward(entries: seq<Entry>)
    requires Encodable(entries)
    ensures Stream(entries) == Forward(entries)
  {
    if entries != [] {
      var n := |entries| - 1;
      StreamIsForward(entries[..n]);
      ForwardAppend(entries[..n], entries[n]);
      assert entries == entries[..n] + [entries[n]];
    }
  }

  lemma SameFront(a: Bytes, b: Bytes, c: Bytes, d: Bytes)
    requires a + b == c + d && |a| == |c|
    ensures a == c && b == d
  {
    assert a == (a + b)[..|a|] && c == (c + d)[..|c|];
    assert b == (a + b)[|a|..] && d == (c + d)[|c|..];
  }

  lemma HeaderDetermined(n: nat, m: nat, a: Bytes, b: Bytes)
    requires Fits(n) && Fits(m) && BigEndian(n, LENGTH_BYTES) + a == BigEndian(m, LENGTH_BYTES) + b
    ensures n == m && a == b
  {
    SameFront(BigEndian(n, LENGTH_BYTES), a, BigEndian(m, LENGTH_BYTES), b);
    ValueOfBigEndian(n, LENGTH_BYTES);
    ValueOfBigEndian(m, LENGTH_BYTES);
  }

  lemma Regrouped(a: Bytes, b: Bytes, c: Bytes, d: Bytes, r: Bytes)
    ensures a + b + c + d + r == a + (b + (c + (d + r)))
  {
  }

  /** The first entry of a stream can be read off, and what follows it is determined. */
  lemma FirstEntryDetermined(x: Entry, y: Entry, r: Bytes, t: Bytes)
    requires Fits(|x.path|) && Fits(x.size) && Fits(|y.path|) && Fits(y.size)
    requires |x.digest| == |y.digest| == DIGEST_BYTES
    requires EntryBytes(x) + r == EntryBytes(y) + t
    ensures x == y && r == t
  {
    var sx, sy := BigEndian(x.size, LENGTH_BYTES), BigEndian(y.size, LENGTH_BYTES);
    Regrouped(BigEndian(|x.path|, LENGTH_BYTES), x.path, sx, x.digest, r);
    Regrouped(BigEndian(|y.path|, LENGTH_BYTES), y.path, sy, y.digest, t);
    HeaderDetermined(|x.path|, |y.path|, x.path + (sx + (x.digest + r)), y.path + (sy + (y.digest + t)));
    SameFront(x.path, sx + (x.digest + r), y.path, sy + (y.digest + t));
    HeaderDetermined(x.size, y.size, x.digest + r, y.digest + t);
    SameFront(x.digest, r, y.digest, t);
  }

  lemma {:induction false} ForwardInjective(xs: seq<Entry>, ys: seq<Entry>)
    requires Encodable(xs) && Encodable(ys) && Digested(xs) && Digested(ys) && Forward(xs) == Forward(ys)
    ensures xs == ys
  {
    if xs != [] && ys != [] {
      FirstEntryDetermined(xs[0], ys[0], Forward(xs[1..]), Forward(ys[1..]));
      ForwardInjective(xs[1..], ys[1..]);
      assert xs == [xs[0]] + xs[1..] && ys == [ys[0]] + ys[1..];
    }
  }

  ghost predicate DistinctPaths(entries: seq<Entry>) {
    forall i, j :: 0 <= i < |entries| && 0 <= j < |entries| && entries[i].path == entries[j].path ==> i == j
  }

  /** What the source's own entries satisfy. */
  ghost predicate ValidEntries(entries: seq<Entry>) {
    Encodable(entries) && Digested(entries) && DistinctPaths(entries)
  }

  lemma SortedDigested(entries: seq<Entry>)
    requires Digested(entries)
    ensures Digested(Sorted(entries, PathLe))
  {
    var ordered := Sorted(entries, PathLe);
    PathLeIsTotalPreorder();
    SortedFacts(entries, PathLe);
    forall i | 0 <= i < |ordered| ensures |ordered[i].digest| == DIGEST_BYTES {
      assert ordered[i] in multiset(entries);
    }
  }

  lemma PathsUntied(entries: seq<Entry>)
    requires DistinctPaths(entries)
    ensures Untied(entries, PathLe)
  {
    NameLeIsTotalOrder();
  }

  /** Two lists of entries are hashed alike exactly when one is a rearrangement of the other. */
  lemma SameStreamExactly(xs: seq<Entry>, ys: seq<Entry>)
    requires ValidEntries(xs) && ValidEntries(ys)
    ensures Encodable(Sorted(xs, PathLe)) && Encodable(Sorted(ys, PathLe))
    ensures PREFIX + Stream(Sorted(xs, PathLe)) == PREFIX + Stream(Sorted(ys, PathLe)) <==> multiset(xs) == multiset(ys)
  {
    var sx, sy := Sorted(xs, PathLe), Sorted(ys, PathLe);
    SortedEncodable(xs);
    SortedEncodable(ys);
    PathLeIsTotalPreorder();
    if multiset(xs) == multiset(ys) {
      PathsUntied(xs);
      SortedPermutation(xs, ys, PathLe);
    }
    if PREFIX + Stream(sx) == PREFIX + Stream(sy) {
      SameFront(PREFIX, Stream(sx), PREFIX, Stream(sy));
      SortedDigested(xs);
      SortedDigested(ys);
      StreamIsForward(sx);
      StreamIsForward(sy);
      ForwardInjective(sx, sy);
      SortedEqualMeansPermutation(xs, ys, PathLe);
    }
  }

  // ---------------------------------------------------------------- the layout

  /** The first byte counts most. */
  lemma {:induction false} FirstByteCountsMost(first: Byte, rest: Bytes)
    ensures Value([first] + rest) == first as nat * Bound(|rest|) + Value(rest) && Value(rest) < Bound(|rest|)
  {
    if rest == [] {
      assert ([first] + rest)[..0] == [];
    } else {
      var n := |rest| - 1;
      FirstByteCountsMost(first, rest[..n]);
      assert ([first] + rest)[..n + 1] == [first] + rest[..n];
      Distributed(first as nat, Bound(n), Value(rest[..n]));
    }
  }

  lemma Distributed(a: nat, b: nat, c: nat)
    ensures 256 * (a * b + c) == a * (256 * b) + 256 * c
  {
  }

  /** Lengths and sizes below 2 to the 64 fit. */
  lemma FitsExactly(n: int)
    ensures Fits(n) <==> 0 <= n < 0x1_0000_0000_0000_0000
  {
    assert Bound(4) == 0x1_0000_0000;
    assert Bound(8) == 0x1_0000_0000_0000_0000;
  }

  /** An entry is fed as the length of its path in eight bytes, the path, the size in eight bytes, and the digest. */
  lemma EntryLayout(e: Entry)
    requires Fits(|e.path|) && Fits(e.size)
    ensures var b, n := EntryBytes(e), |e.path|;
      && |b| == 16 + n + |e.digest| && Value(b[..8]) == n && b[8..8 + n] == e.path
      && Value(b[8 + n..16 + n]) == e.size && b[16 + n..] == e.digest
  {
    var b, n := EntryBytes(e), |e.path|;
    var length, size := BigEndian(n, LENGTH_BYTES), BigEndian(e.size, LENGTH_BYTES);
    assert b == length + e.path + size + e.digest;
    assert b[..8] == length && b[8 + n..16 + n] == size;
    ValueOfBigEndian(n, LENGTH_BYTES);
    ValueOfBigEndian(e.size, LENGTH_BYTES);
  }

  /** What is hashed after the prefix: the entries, those with smaller paths first, one behind the other. */
  lemma StreamInOrder(entries: seq<Entry>)
    requires Encodable(entries)
    ensures var s := Sorted(entries, PathLe);
      && Encodable(s) && multiset(s) == multiset(entries) && (forall i, j :: 0 <= i < j < |s| ==> NameLe(s[i].path, s[j].path))
      && (s == [] ==> Stream(s) == [])
      && (s != [] ==> Encodable(s[1..]) && Stream(s) == EntryBytes(s[0]) + Stream(s[1..]))
  {
    var s := Sorted(entries, PathLe);
    SortedEncodable(entries);
    PathLeIsTotalPreorder();
    SortedFacts(entries, PathLe);
    StreamFromFront(s);
  }

  lemma StreamFromFront(entries: seq<Entry>)
    requires Encodable(entries)
    ensures entries == [] ==> Stream(entries) == []
    ensures entries != [] ==> Encodable(entries[1..]) && Stream(entries) == EntryBytes(entries[0]) + Stream(entries[1..])
  {
    if entries != [] {
      StreamIsForward(entries);
      StreamIsForward(entries[1..]);
    }
  }
}
