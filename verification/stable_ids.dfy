/** Identities of top-level declarations that survive edits of their bodies: the bytes
    of a signature, the IDs, and a table's export fingerprint (symbol/symbol.go). */
module StableIds {
  import opened Symbols

  type Byte = b: int | 0 <= b < 256

  /** Text as the bytes it is stored in. */
  type Text = seq<Byte>

  datatype Signature = Signature(
    kind: Byte, name: Text, tag: Text, isArray: bool, isConst: bool, isStatic: bool,
    minArgs: int, maxArgs: int, paramTags: seq<Text>, stateSelector: Text)

  const WORD := 0x1_0000_0000

  function Pow256(k: nat): (r: nat)
    ensures r > 0
  {
    if k == 0 then 1 else 256 * Pow256(k - 1)
  }

  /** A number in so many bytes, least significant first. */
  function LittleEndian(n: nat, k: nat): (r: Text)
    ensures |r| == k
  {
    if k == 0 then [] else [n % 256] + LittleEndian(n / 256, k - 1)
  }

  /** A signed count keeps its 32-bit pattern: -1 is all ones. */
  function Pattern32(n: int): nat { n % WORD }

  function WriteString(s: Text): Text { LittleEndian(|s|, 8) + s }

  function Flags(s: Signature): Byte {
    (if s.isArray then 1 else 0) + (if s.isConst then 2 else 0) + (if s.isStatic then 4 else 0)
  }

  function WriteStrings(texts: seq<Text>): Text {
    if texts == [] then [] else WriteString(texts[0]) + WriteStrings(texts[1..])
  }

  /** The signature's bytes. The parameter tags are not counted: what follows the
      arities is a run of strings, the last of which is the state selector. */
  function Write(s: Signature): Text {
    [s.kind] + WriteString(s.name) + WriteString(s.tag) + [Flags(s)]
    + LittleEndian(Pattern32(s.minArgs), 4) + LittleEndian(Pattern32(s.maxArgs), 4)
    + WriteStrings(s.paramTags) + WriteString(s.stateSelector)
  }

  method WriteStableSignature(s: Signature) returns (buffer: Text)
    ensures buffer == Write(s)
  {
    hide WriteString, WriteStrings, LittleEndian;
    buffer := [s.kind];
    buffer := buffer + WriteString(s.name);
    buffer := buffer + WriteString(s.tag);
    var flags: Byte := 0;
    if s.isArray {
      flags := flags + 1;
    }
    if s.isConst {
      flags := flags + 2;
    }
    if s.isStatic {
      flags := flags + 4;
    }
    buffer := buffer + [flags];
    buffer := buffer + LittleEndian(Pattern32(s.minArgs), 4);
    buffer := buffer + LittleEndian(Pattern32(s.maxArgs), 4);
    buffer := WriteTags(buffer, s.paramTags);
    buffer := buffer + WriteString(s.stateSelector);
  }

  method WriteTags(front: Text, tags: seq<Text>) returns (buffer: Text)
    ensures buffer == front + WriteStrings(tags)
  {
    hide WriteString;
    buffer := front;
    var i := 0;
    assert tags[..0] == [];
    while i < |tags|
      invariant 0 <= i <= |tags|
      invariant buffer == front + WriteStrings(tags[..i])
    {
      WriteStringsJoin(tags[..i], [tags[i]]);
      OneString(tags[i]);
      assert tags[..i + 1] == tags[..i] + [tags[i]];
      buffer := buffer + WriteString(tags[i]);
      i := i + 1;
    }
    assert tags[..i] == tags;
  }

  lemma {:induction false} OneString(t: Text)
    ensures WriteStrings([t]) == WriteString(t)
  {
    assert [t][1..] == [];
    assert WriteString(t) + [] == WriteString(t);
  }

  lemma {:induction false} WriteStringsJoin(a: seq<Text>, b: seq<Text>)
    ensures WriteStrings(a + b) == WriteStrings(a) + WriteStrings(b)
    decreases |a|
  {
    if a == [] {
      assert a + b == b;
    } else {
      assert (a + b)[1..] == a[1..] + b;
      WriteStringsJoin(a[1..], b);
    }
  }

  // ---- The bytes determine the signature ----

  lemma {:induction false} LittleEndianIsInjective(a: nat, b: nat, k: nat)
    requires a < Pow256(k) && b < Pow256(k) && LittleEndian(a, k) == LittleEndian(b, k)
    ensures a == b
    decreases k
  {
    if k > 0 {
      var x, y := LittleEndian(a, k), LittleEndian(b, k);
      assert x[0] == a % 256 && y[0] == b % 256;
      assert x[1..] == LittleEndian(a / 256, k - 1) && y[1..] == LittleEndian(b / 256, k - 1);
      LittleEndianIsInjective(a / 256, b / 256, k - 1);
    }
  }

  lemma {:induction false} EightBytes()
    ensures Pow256(8) == 0x1_0000_0000_0000_0000 && Pow256(4) == WORD
  {
    assert Pow256(1) == 256;
    assert Pow256(2) == 0x1_0000;
    assert Pow256(3) == 0x100_0000;
    assert Pow256(4) == 0x1_0000_0000;
    assert Pow256(5) == 0x100_0000_0000;
    assert Pow256(6) == 0x1_0000_0000_0000;
    assert Pow256(7) == 0x100_0000_0000_0000;
  }

  /** Lengths fit in the eight bytes they are written in. */
  predicate Short(s: Text) { |s| < 0x1_0000_0000_0000_0000 }

  lemma {:induction false} PrefixDetermined(a: Text, b: Text, a': Text, b': Text)
    requires a + a' == b + b' && |a| == |b|
    ensures a == b && a' == b'
  {
    assert (a + a')[..|a|] == a && (b + b')[..|b|] == b;
    assert (a + a')[|a|..] == a' && (b + b')[|b|..] == b';
  }

  lemma {:induction false} StringDetermined(s: Text, t: Text, s': Text, t': Text)
    requires Short(s) && Short(t) && WriteString(s) + s' == WriteString(t) + t'
    ensures s == t && s' == t'
  {
    var a, b := LittleEndian(|s|, 8), LittleEndian(|t|, 8);
    assert WriteString(s) + s' == a + (s + s');
    assert WriteString(t) + t' == b + (t + t');
    PrefixDetermined(a, b, s + s', t + t');
    EightBytes();
    LittleEndianIsInjective(|s|, |t|, 8);
    PrefixDetermined(s, t, s', t');
  }

  lemma {:induction false} StringsDetermined(a: seq<Text>, b: seq<Text>)
    requires (forall s :: s in a ==> Short(s)) && (forall s :: s in b ==> Short(s))
    requires WriteStrings(a) == WriteStrings(b)
    ensures a == b
    decreases |a|
  {
    if a == [] || b == [] {
      assert a != [] ==> |WriteStrings(a)| >= 8;
      assert b != [] ==> |WriteStrings(b)| >= 8;
    } else {
      StringDetermined(a[0], b[0], WriteStrings(a[1..]), WriteStrings(b[1..]));
      StringsDetermined(a[1..], b[1..]);
      assert a == [a[0]] + a[1..] && b == [b[0]] + b[1..];
    }
  }

  /** A signature the encoding was made for: 32-bit arities, lengths that fit. */
  predicate Encodable(s: Signature) {
    && -0x8000_0000 <= s.minArgs < 0x8000_0000 && -0x8000_0000 <= s.maxArgs < 0x8000_0000
    && Short(s.name) && Short(s.tag) && Short(s.stateSelector) && forall t :: t in s.paramTags ==> Short(t)
  }

  lemma {:induction false} ArityDetermined(a: int, b: int)
    requires -0x8000_0000 <= a < 0x8000_0000 && -0x8000_0000 <= b < 0x8000_0000
    requires LittleEndian(Pattern32(a), 4) == LittleEndian(Pattern32(b), 4)
    ensures a == b
  {
    EightBytes();
    LittleEndianIsInjective(Pattern32(a), Pattern32(b), 4);
  }

  function Tail(s: Signature): Text { WriteStrings(s.paramTags) + WriteString(s.stateSelector) }

  lemma {:induction false} TailDetermined(a: Signature, b: Signature)
    requires Encodable(a) && Encodable(b) && Tail(a) == Tail(b)
    ensures a.paramTags == b.paramTags && a.stateSelector == b.stateSelector
  {
    var x, y := a.paramTags + [a.stateSelector], b.paramTags + [b.stateSelector];
    WriteStringsJoin(a.paramTags, [a.stateSelector]);
    WriteStringsJoin(b.paramTags, [b.stateSelector]);
    OneString(a.stateSelector);
    OneString(b.stateSelector);
    StringsDetermined(x, y);
    assert x[..|x| - 1] == a.paramTags && y[..|y| - 1] == b.paramTags;
    assert x[|x| - 1] == a.stateSelector && y[|y| - 1] == b.stateSelector;
  }

  /** After the two names: flags, arities, strings. */
  function Back(s: Signature): Text {
    [Flags(s)] + (LittleEndian(Pattern32(s.minArgs), 4) + (LittleEndian(Pattern32(s.maxArgs), 4) + Tail(s)))
  }

  lemma {:induction false} WriteInParts(s: Signature)
    ensures Write(s) == [s.kind] + (WriteString(s.name) + (WriteString(s.tag) + Back(s)))
  {
  }

  lemma {:induction false} BackDetermined(a: Signature, b: Signature)
    requires Encodable(a) && Encodable(b) && Back(a) == Back(b)
    ensures a == b.(kind := a.kind, name := a.name, tag := a.tag)
  {
    hide LittleEndian, Tail;
    var ma, mb := LittleEndian(Pattern32(a.minArgs), 4), LittleEndian(Pattern32(b.minArgs), 4);
    var xa, xb := LittleEndian(Pattern32(a.maxArgs), 4), LittleEndian(Pattern32(b.maxArgs), 4);
    PrefixDetermined([Flags(a)], [Flags(b)], ma + (xa + Tail(a)), mb + (xb + Tail(b)));
    assert [Flags(a)][0] == [Flags(b)][0];
    PrefixDetermined(ma, mb, xa + Tail(a), xb + Tail(b));
    PrefixDetermined(xa, xb, Tail(a), Tail(b));
    ArityDetermined(a.minArgs, b.minArgs);
    ArityDetermined(a.maxArgs, b.maxArgs);
    TailDetermined(a, b);
  }

  /** Different signatures have different bytes. */
  lemma {:induction false} WriteIsInjective(a: Signature, b: Signature)
    requires Encodable(a) && Encodable(b) && Write(a) == Write(b)
    ensures a == b
  {
    hide Write, WriteString, Back;
    WriteInParts(a);
    WriteInParts(b);
    var ra, rb := WriteString(a.tag) + Back(a), WriteString(b.tag) + Back(b);
    PrefixDetermined([a.kind], [b.kind], WriteString(a.name) + ra, WriteString(b.name) + rb);
    assert [a.kind][0] == [b.kind][0];
    StringDetermined(a.name, b.name, ra, rb);
    StringDetermined(a.tag, b.tag, Back(a), Back(b));
    BackDetermined(a, b);
  }

  // ---- Identities ----

  /** Digests, ordered as their bytes are. */
  type Digest = nat

  /** The hash, as three functions without collisions: of a signature's bytes, of a
      digest with its ordinal, and of a list of digests. */
  datatype Hasher = Hasher(
    ofBytes: Text -> Digest, ofIdentity: (Digest, nat) -> Digest, ofList: seq<Digest> -> Digest)

  ghost predicate CollisionFree(h: Hasher) {
    && (forall a: Text, b: Text :: h.ofBytes(a) == h.ofBytes(b) ==> a == b)
    && (forall d: nat, e: nat, i: nat, j: nat :: h.ofIdentity(d, i) == h.ofIdentity(e, j) ==> d == e && i == j)
    && (forall a: seq<Digest>, b: seq<Digest> :: h.ofList(a) == h.ofList(b) ==> a == b)
  }

  function Digests(h: Hasher, sigs: seq<Signature>): seq<Digest> {
    seq<Digest>(|sigs|, i requires 0 <= i < |sigs| => h.ofBytes(Write(sigs[i])))
  }

  /** A top-level declaration's ID: its digest, and which of those with the same digest
      it is. */
  function StableId(h: Hasher, sigs: seq<Signature>, i: nat): Digest
    requires i < |sigs|
  {
    var ds := Digests(h, sigs);
    h.ofIdentity(ds[i], multiset(ds[..i])[ds[i]])
  }

  lemma {:induction false} LaterOccurrence(ds: seq<Digest>, i: nat, j: nat)
    requires i < j < |ds| && ds[i] == ds[j]
    ensures multiset(ds[..i])[ds[i]] < multiset(ds[..j])[ds[j]]
  {
    assert ds[..j] == ds[..i] + [ds[i]] + ds[i + 1..j];
  }

  /** Two declarations of a table never share an ID. */
  lemma {:induction false} StableIdsAreDistinct(h: Hasher, sigs: seq<Signature>, i: nat, j: nat)
    requires CollisionFree(h) && i < j < |sigs|
    ensures StableId(h, sigs, i) != StableId(h, sigs, j)
  {
    var ds := Digests(h, sigs);
    if ds[i] == ds[j] {
      LaterOccurrence(ds, i, j);
    }
  }

  /** One ID, one signature, across any two tables. */
  lemma {:induction false} StableIdTellsSignature(h: Hasher, a: seq<Signature>, b: seq<Signature>, i: nat, j: nat)
    requires CollisionFree(h) && AllEncodable(a) && AllEncodable(b)
    requires i < |a| && j < |b| && StableId(h, a, i) == StableId(h, b, j)
    ensures a[i] == b[j]
  {
    assert a[i] in a && b[j] in b;
    assert Digests(h, a)[i] == Digests(h, b)[j];
    WriteIsInjective(a[i], b[j]);
  }

  predicate AllEncodable(sigs: seq<Signature>) { forall s :: s in sigs ==> Encodable(s) }

  // ---- The export fingerprint ----

  predicate Sorted(ds: seq<Digest>) { forall i, j :: 0 <= i < j < |ds| ==> ds[i] <= ds[j] }

  function Insert(ds: seq<Digest>, d: Digest): seq<Digest> {
    if ds == [] || d <= ds[0] then [d] + ds else [ds[0]] + Insert(ds[1..], d)
  }

  function Sort(ds: seq<Digest>): seq<Digest> {
    if ds == [] then [] else Insert(Sort(ds[..|ds| - 1]), ds[|ds| - 1])
  }

  predicate AtLeast(ds: seq<Digest>, d: Digest) { forall i :: 0 <= i < |ds| ==> d <= ds[i] }

  lemma {:induction false} SortedTail(ds: seq<Digest>)
    requires Sorted(ds) && ds != []
    ensures Sorted(ds[1..]) && AtLeast(ds, ds[0])
  {
  }

  lemma {:induction false} SortedWithHead(d: Digest, ds: seq<Digest>)
    requires Sorted(ds) && AtLeast(ds, d)
    ensures Sorted([d] + ds)
  {
    var all := [d] + ds;
    forall i, j | 0 <= i < j < |all| ensures all[i] <= all[j] {
      assert all[j] == ds[j - 1];
      assert i > 0 ==> all[i] == ds[i - 1];
    }
  }

  lemma {:induction false} InsertCounts(ds: seq<Digest>, d: Digest)
    ensures multiset(Insert(ds, d)) == multiset(ds) + multiset{d}
    decreases |ds|
  {
    if ds != [] && d > ds[0] {
      InsertCounts(ds[1..], d);
      assert ds == [ds[0]] + ds[1..];
    }
  }

  lemma {:induction false} InsertSorts(ds: seq<Digest>, d: Digest)
    requires Sorted(ds)
    ensures Sorted(Insert(ds, d))
    decreases |ds|
  {
    hide Sorted;
    if ds == [] {
      NoneSorted();
      SortedWithHead(d, ds);
    } else {
      SortedTail(ds);
      if d <= ds[0] {
        SortedWithHead(d, ds);
      } else {
        InsertSorts(ds[1..], d);
        TailBounds(ds, ds[0]);
        InsertBounds(ds[1..], d, ds[0]);
        SortedWithHead(ds[0], Insert(ds[1..], d));
      }
    }
  }

  lemma {:induction false} InsertBounds(ds: seq<Digest>, d: Digest, least: Digest)
    requires AtLeast(ds, least) && least <= d
    ensures AtLeast(Insert(ds, d), least)
    decreases |ds|
  {
    if ds != [] && d > ds[0] {
      TailBounds(ds, least);
      InsertBounds(ds[1..], d, least);
    }
  }

  lemma {:induction false} TailBounds(ds: seq<Digest>, least: Digest)
    requires AtLeast(ds, least) && ds != []
    ensures AtLeast(ds[1..], least)
  {
  }

  lemma {:induction false} NoneSorted()
    ensures Sorted([])
  {
  }

  lemma {:induction false} SortSorts(ds: seq<Digest>)
    ensures Sorted(Sort(ds)) && multiset(Sort(ds)) == multiset(ds)
    decreases |ds|
  {
    hide Sorted, Insert;
    if ds == [] {
      NoneSorted();
    } else {
      var n := |ds| - 1;
      SortSorts(ds[..n]);
      InsertSorts(Sort(ds[..n]), ds[n]);
      InsertCounts(Sort(ds[..n]), ds[n]);
      assert ds == ds[..n] + [ds[n]];
    }
  }

  lemma {:induction false} CancelOne<T>(a: multiset<T>, b: multiset<T>, x: T)
    requires a + multiset{x} == b + multiset{x}
    ensures a == b
  {
    assert a == (a + multiset{x}) - multiset{x};
    assert b == (b + multiset{x}) - multiset{x};
  }

  lemma {:induction false} SameHeads(a: seq<Digest>, b: seq<Digest>)
    requires multiset(a) == multiset(b) && a != [] && b != []
    requires AtLeast(a, a[0]) && AtLeast(b, b[0])
    ensures a[0] == b[0] && multiset(a[1..]) == multiset(b[1..])
  {
    assert a[0] in multiset(b) && b[0] in multiset(a);
    assert a[0] in b && b[0] in a;
    assert a == [a[0]] + a[1..] && b == [b[0]] + b[1..];
    assert multiset(a) == multiset(a[1..]) + multiset{a[0]};
    assert multiset(b) == multiset(b[1..]) + multiset{b[0]};
    CancelOne(multiset(a[1..]), multiset(b[1..]), a[0]);
  }

  /** The same digests sort to the same list. */
  lemma {:induction false} SortedIsUnique(a: seq<Digest>, b: seq<Digest>)
    requires Sorted(a) && Sorted(b) && multiset(a) == multiset(b)
    ensures a == b
    decreases |a|
  {
    hide Sorted, AtLeast;
    assert |multiset(a)| == |a| && |multiset(b)| == |b|;
    if a != [] {
      SortedTail(a);
      SortedTail(b);
      SameHeads(a, b);
      SortedIsUnique(a[1..], b[1..]);
      assert a == [a[0]] + a[1..] && b == [b[0]] + b[1..];
    }
  }

  function Fingerprint(h: Hasher, sigs: seq<Signature>): Digest { h.ofList(Sort(Digests(h, sigs))) }

  /** Fingerprints agree exactly when the digests do, up to order. */
  lemma {:induction false} FingerprintComparesDigests(h: Hasher, a: seq<Signature>, b: seq<Signature>)
    requires CollisionFree(h)
    ensures Fingerprint(h, a) == Fingerprint(h, b) <==> multiset(Digests(h, a)) == multiset(Digests(h, b))
  {
    hide Digests, Sort, Sorted;
    var x, y := Digests(h, a), Digests(h, b);
    SortSorts(x);
    SortSorts(y);
    if multiset(x) == multiset(y) {
      SortedIsUnique(Sort(x), Sort(y));
    }
    if Fingerprint(h, a) == Fingerprint(h, b) {
      assert Sort(x) == Sort(y);
    }
  }

  lemma {:induction false} DigestCounts(h: Hasher, sigs: seq<Signature>, s: Signature)
    requires CollisionFree(h) && AllEncodable(sigs) && Encodable(s)
    ensures multiset(Digests(h, sigs))[h.ofBytes(Write(s))] == multiset(sigs)[s]
    decreases |sigs|
  {
    hide Write, Encodable;
    if sigs != [] {
      var n := |sigs| - 1;
      assert sigs == sigs[..n] + [sigs[n]];
      assert Digests(h, sigs) == Digests(h, sigs[..n]) + [h.ofBytes(Write(sigs[n]))];
      DigestCounts(h, sigs[..n], s);
      assert sigs[n] in sigs;
      if Write(sigs[n]) == Write(s) {
        WriteIsInjective(sigs[n], s);
      }
    }
  }

  /** Two tables have the same fingerprint exactly when they declare the same top-level
      signatures, each as often. */
  lemma {:induction false} FingerprintComparesSignatures(h: Hasher, a: seq<Signature>, b: seq<Signature>)
    requires CollisionFree(h) && AllEncodable(a) && AllEncodable(b)
    ensures Fingerprint(h, a) == Fingerprint(h, b) <==> multiset(a) == multiset(b)
  {
    hide Digests, Fingerprint, Write, Encodable, CollisionFree;
    FingerprintComparesDigests(h, a, b);
    if multiset(a) == multiset(b) {
      SameDigests(h, a, b);
    }
    if multiset(Digests(h, a)) == multiset(Digests(h, b)) {
      forall s ensures multiset(a)[s] == multiset(b)[s] {
        if s in a || s in b {
          DigestCounts(h, a, s);
          DigestCounts(h, b, s);
        }
      }
    }
  }

  lemma {:induction false} SameDigests(h: Hasher, a: seq<Signature>, b: seq<Signature>)
    requires multiset(a) == multiset(b)
    ensures multiset(Digests(h, a)) == multiset(Digests(h, b))
    decreases |a|
  {
    hide Digests;
    assert |multiset(a)| == |a| && |multiset(b)| == |b|;
    if a == [] {
      assert b == [];
    } else {
      var n := |a| - 1;
      assert a == a[..n] + [a[n]];
      assert a[n] in multiset(b);
      var k :| 0 <= k < |b| && b[k] == a[n];
      var rest := b[..k] + b[k + 1..];
      assert b == b[..k] + [b[k]] + b[k + 1..];
      CancelOne(multiset(a[..n]), multiset(rest), a[n]);
      SameDigests(h, a[..n], rest);
      DigestsWithout(h, a, n);
      DigestsWithout(h, b, k);
      assert a[..n] + a[n + 1..] == a[..n];
    }
  }

  /** Leaving one signature out leaves its digest out. */
  lemma {:induction false} DigestsWithout(h: Hasher, sigs: seq<Signature>, k: nat)
    requires k < |sigs|
    ensures multiset(Digests(h, sigs))
            == multiset(Digests(h, sigs[..k] + sigs[k + 1..])) + multiset{h.ofBytes(Write(sigs[k]))}
  {
    hide Write;
    var d := h.ofBytes(Write(sigs[k]));
    assert Digests(h, sigs) == Digests(h, sigs[..k]) + [d] + Digests(h, sigs[k + 1..]);
    assert Digests(h, sigs[..k] + sigs[k + 1..]) == Digests(h, sigs[..k]) + Digests(h, sigs[k + 1..]);
  }

  /** With equal fingerprints, every ID of one table is the ID of exactly one declaration
      of the other, which has the same signature. */
  lemma {:induction false} EqualFingerprintsMatchIds(h: Hasher, a: seq<Signature>, b: seq<Signature>, i: nat) returns (j: nat)
    requires CollisionFree(h) && AllEncodable(a) && AllEncodable(b) && i < |a|
    requires Fingerprint(h, a) == Fingerprint(h, b)
    ensures j < |b| && StableId(h, b, j) == StableId(h, a, i) && b[j] == a[i]
    ensures forall k: nat :: k < |b| && StableId(h, b, k) == StableId(h, a, i) ==> k == j
  {
    hide Fingerprint, Write, Encodable;
    FingerprintComparesDigests(h, a, b);
    var x, y := Digests(h, a), Digests(h, b);
    var n := multiset(x[..i])[x[i]];
    assert x == x[..i] + [x[i]] + x[i + 1..];
    assert n < multiset(y)[x[i]];
    j := NthOccurrence(y, x[i], n);
    StableIdTellsSignature(h, a, b, i, j);
    forall k: nat | k < |b| && StableId(h, b, k) == StableId(h, a, i) ensures k == j {
      if k < j {
        StableIdsAreDistinct(h, b, k, j);
      } else if j < k {
        StableIdsAreDistinct(h, b, j, k);
      }
    }
  }

  lemma {:induction false} NthOccurrence(ds: seq<Digest>, d: Digest, n: nat) returns (j: nat)
    requires n < multiset(ds)[d]
    ensures j < |ds| && ds[j] == d && multiset(ds[..j])[d] == n
    decreases |ds|
  {
    var m := |ds| - 1;
    assert ds == ds[..m] + [ds[m]];
    if n < multiset(ds[..m])[d] {
      j := NthOccurrence(ds[..m], d, n);
      assert ds[..m][..j] == ds[..j];
    } else {
      j := m;
    }
  }

  // ---- The loop over a table ----

  /** A symbol as the pass sees it: its ID, whether it stands in the file's scope, and
      its signature. */
  datatype Item = Item(id: nat, topLevel: bool, sig: Signature)

  function TopLevel(items: seq<Item>): seq<Item> {
    if items == [] then []
    else
      var n := |items| - 1;
      TopLevel(items[..n]) + if items[n].topLevel then [items[n]] else []
  }

  function Sigs(items: seq<Item>): seq<Signature> {
    seq(|items|, i requires 0 <= i < |items| => items[i].sig)
  }

  predicate DistinctIds(items: seq<Item>) {
    forall i, j :: 0 <= i < j < |items| ==> items[i].id != items[j].id
  }

  /** Every declaration, and nothing else, has its ID. */
  ghost predicate Assigned(h: Hasher, tops: seq<Item>, ids: map<nat, Digest>) {
    && (forall id :: id in ids ==> exists i :: 0 <= i < |tops| && tops[i].id == id)
    && forall i :: 0 <= i < |tops| ==> tops[i].id in ids && ids[tops[i].id] == StableId(h, Sigs(tops), i)
  }

  ghost predicate Counted(ordinals: map<Digest, nat>, digests: seq<Digest>) {
    forall d: Digest :: (if d in ordinals then ordinals[d] else 0) == multiset(digests)[d]
  }

  /** One pass over the symbols: count each digest, give every declaration its ID, and
      hash the sorted digests. */
  method BuildStableIDs(h: Hasher, items: seq<Item>) returns (ids: map<nat, Digest>, exports: Digest)
    requires DistinctIds(items)
    ensures exports == Fingerprint(h, Sigs(TopLevel(items)))
    ensures Assigned(h, TopLevel(items), ids)
  {
    hide Write, Digests, Sigs, Assigned, Counted, StableId, TopLevel, DistinctIds;
    var ordinals: map<Digest, nat> := map[];
    var digests: seq<Digest> := [];
    ids := map[];
    var k := 0;
    PassStarts(h, items);
    while k < |items|
      invariant 0 <= k <= |items|
      invariant digests == Digests(h, Sigs(TopLevel(items[..k])))
      invariant Counted(ordinals, digests)
      invariant Assigned(h, TopLevel(items[..k]), ids)
    {
      var item := items[k];
      TopLevelGrows(items, k);
      if item.topLevel {
        NewId(items, k);
        AssignsOneMore(h, TopLevel(items[..k]), ids, item);
        CountsOneMore(ordinals, digests, h.ofBytes(Write(item.sig)));
        var d := h.ofBytes(Write(item.sig));
        var ordinal := if d in ordinals then ordinals[d] else 0;
        ordinals := ordinals[d := ordinal + 1];
        ids := ids[item.id := h.ofIdentity(d, ordinal)];
        digests := digests + [d];
      }
      k := k + 1;
    }
    assert items[..k] == items;
    exports := h.ofList(Sort(digests));
  }

  lemma {:induction false} PassStarts(h: Hasher, items: seq<Item>)
    ensures Digests(h, Sigs(TopLevel(items[..0]))) == [] && Counted(map[], []) && Assigned(h, TopLevel(items[..0]), map[])
  {
  }

  lemma {:induction false} TopLevelGrows(items: seq<Item>, k: nat)
    requires k < |items|
    ensures TopLevel(items[..k + 1]) == if items[k].topLevel then TopLevel(items[..k]) + [items[k]] else TopLevel(items[..k])
  {
    assert items[..k + 1][..k] == items[..k];
  }

  lemma {:induction false} CountsOneMore(ordinals: map<Digest, nat>, digests: seq<Digest>, d: Digest)
    requires Counted(ordinals, digests)
    ensures
      var ordinal := if d in ordinals then ordinals[d] else 0;
      ordinal == multiset(digests)[d] && Counted(ordinals[d := ordinal + 1], digests + [d])
  {
  }

  /** What a pass keeps of the symbols stems from them. */
  lemma {:induction false} TopLevelFrom(items: seq<Item>)
    ensures forall t :: t in TopLevel(items) ==> t in items
    decreases |items|
  {
    if items != [] {
      TopLevelFrom(items[..|items| - 1]);
    }
  }

  lemma {:induction false} NewId(items: seq<Item>, k: nat)
    requires DistinctIds(items) && k < |items|
    ensures forall t :: t in TopLevel(items[..k]) ==> t.id != items[k].id
  {
    TopLevelFrom(items[..k]);
  }

  lemma {:induction false} AssignsOneMore(h: Hasher, tops: seq<Item>, ids: map<nat, Digest>, item: Item)
    requires Assigned(h, tops, ids)
    requires forall t :: t in tops ==> t.id != item.id
    ensures
      var d := h.ofBytes(Write(item.sig));
      var digests := Digests(h, Sigs(tops));
      && Digests(h, Sigs(tops + [item])) == digests + [d]
      && Assigned(h, tops + [item], ids[item.id := h.ofIdentity(d, multiset(digests)[d])])
  {
    hide Write, StableId;
    var d := h.ofBytes(Write(item.sig));
    var digests := Digests(h, Sigs(tops));
    var more := tops + [item];
    var after := ids[item.id := h.ofIdentity(d, multiset(digests)[d])];
    IdsStay(h, tops, item);
    forall i | 0 <= i < |more|
      ensures more[i].id in after && after[more[i].id] == StableId(h, Sigs(more), i)
    {
      if i < |tops| {
        assert more[i] == tops[i] && tops[i] in tops;
      }
    }
    forall id | id in after
      ensures exists i :: 0 <= i < |more| && more[i].id == id
    {
      if id == item.id {
        assert more[|tops|].id == id;
      } else {
        var i :| 0 <= i < |tops| && tops[i].id == id;
        assert more[i].id == id;
      }
    }
  }

  lemma {:induction false} IdsStay(h: Hasher, tops: seq<Item>, item: Item)
    ensures
      var d := h.ofBytes(Write(item.sig));
      var digests := Digests(h, Sigs(tops));
      var more := Sigs(tops + [item]);
      && Digests(h, more) == digests + [d]
      && (forall i :: 0 <= i < |tops| ==> StableId(h, more, i) == StableId(h, Sigs(tops), i))
      && StableId(h, more, |tops|) == h.ofIdentity(d, multiset(digests)[d])
  {
    hide Write;
    var digests := Digests(h, Sigs(tops));
    var more := Sigs(tops + [item]);
    var all := Digests(h, more);
    assert all == digests + [h.ofBytes(Write(item.sig))];
    forall i | 0 <= i < |tops| ensures StableId(h, more, i) == StableId(h, Sigs(tops), i) {
      assert all[..i] == digests[..i];
    }
    assert all[..|tops|] == digests;
  }
}
