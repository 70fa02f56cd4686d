// The byte stream hashed for a runtime tree (provision_perception_runtime.py, lines 1672-1716).
module TreeDigest {
  import opened Wrappers
  import opened Bytes
  import opened Arithmetic
  import TextOrder
  import Sorting

  // What the digest records of one path.
  datatype Node =
    | Link(name: seq<Byte>, mode: nat, target: seq<Byte>)
    | Directory(name: seq<Byte>, mode: nat)
    | File(name: seq<Byte>, mode: nat, size: nat, sha256: seq<Byte>)

  // One visited path: its node, unless it is a special file, and what the trust checks look at.
  datatype Visit = Visit(node: Node, special: bool, trustedOwner: bool, internalTarget: bool, links: nat)

  const LINK: seq<Byte> := [108, 105, 110, 107]
  const DIRECTORY: seq<Byte> := [100, 105, 114, 101, 99, 116, 111, 114, 121]
  const FILE: seq<Byte> := [102, 105, 108, 101]
  const COLON: Byte := 58

  function Kind(n: Node): seq<Byte> {
    match n
    case Link(_, _, _) => LINK
    case Directory(_, _) => DIRECTORY
    case File(_, _, _, _) => FILE
  }

  function Payload(n: Node): seq<Byte> {
    match n
    case Link(_, _, target) => target
    case Directory(_, _) => []
    case File(_, _, size, sha256) => Numeral(size, 10) + [COLON] + sha256
  }

  // A length-prefixed field.
  function Field(value: seq<Byte>): seq<Byte> {
    BigEndian(|value|, 8) + value
  }

  function Fields(n: Node): seq<seq<Byte>> {
    [Kind(n), n.name, Numeral(n.mode, 8), Payload(n)]
  }

  function FieldStream(fields: seq<seq<Byte>>): seq<Byte> {
    if fields == [] then [] else Field(fields[0]) + FieldStream(fields[1..])
  }

  function EntryStream(n: Node): seq<Byte> {
    FieldStream(Fields(n))
  }

  function Stream(nodes: seq<Node>): seq<Byte> {
    if nodes == [] then [] else Stream(nodes[..|nodes| - 1]) + EntryStream(nodes[|nodes| - 1])
  }

  // Every length fits the eight-byte prefix.
  ghost predicate Fits(n: Node) {
    forall i :: 0 <= i < 4 ==> |Fields(n)[i]| < Power(256, 8)
  }

  // ----- the traversal -----

  predicate GroupOrOtherWritable(mode: nat) {
    (mode / 16) % 2 == 1 || (mode / 2) % 2 == 1
  }

  predicate OtherSearchable(mode: nat) {
    mode % 2 == 1
  }

  // The write bit of the second or third octal digit, and the search bit of the third.
  lemma {:induction false} ModeBits(mode: nat)
    ensures var group, other := mode / 8 % 8, mode % 8;
            && (GroupOrOtherWritable(mode) <==> group in {2, 3, 6, 7} || other in {2, 3, 6, 7})
            && (OtherSearchable(mode) <==> other in {1, 3, 5, 7})
  {
    SecondBit(mode / 8);
    SecondBit(mode);
    FirstBit(mode);
    assert mode / 16 == mode / 8 / 2;
  }

  lemma {:induction false} SecondBit(n: nat)
    ensures n / 2 % 2 == 1 <==> n % 8 in {2, 3, 6, 7}
  {
    Halves(n);
    QuotientIs(n / 2, 2, 2 * (n / 8) + n % 8 / 4);
  }

  lemma {:induction false} FirstBit(n: nat)
    ensures n % 2 == 1 <==> n % 8 in {1, 3, 5, 7}
  {
    Halves(n);
  }

  // Links, directories and files within the trust rules; no special file is.
  predicate Trusted(v: Visit) {
    v.trustedOwner && !v.special &&
    match v.node
    case Link(_, _, _) => v.internalTarget
    case Directory(_, mode) => !GroupOrOtherWritable(mode) && OtherSearchable(mode)
    case File(_, mode, _, _) => !GroupOrOtherWritable(mode) && v.links == 1
  }

  // ----- the order of the paths -----

  predicate NameLeq(v: Visit, w: Visit) {
    TextOrder.Leq(v.node.name, w.node.name)
  }

  lemma {:induction false} NamesOrder()
    ensures Sorting.Orders(NameLeq)
  {
    forall a, b, c
      ensures (NameLeq(a, b) || NameLeq(b, a)) && (NameLeq(a, b) && NameLeq(b, c) ==> NameLeq(a, c))
    {
      TextOrder.LeqIsTotalOrder(a.node.name, b.node.name, c.node.name);
    }
  }

  function Sort(s: seq<Visit>): seq<Visit> {
    Sorting.Sort(s, NameLeq)
  }

  lemma {:induction false} SortSorts(s: seq<Visit>)
    ensures Sorting.Sorted(Sort(s), NameLeq)
  {
    NamesOrder();
    Sorting.SortSorts(s, NameLeq);
  }

  // Paths of one tree have distinct names.
  ghost predicate DistinctNames(s: seq<Visit>) {
    forall v, w :: v in s && w in s && v.node.name == w.node.name ==> v == w
  }

  // The digest does not depend on the order in which the directory tree is walked.
  lemma {:induction false} WalkOrderIsIrrelevant(s: seq<Visit>, t: seq<Visit>)
    requires multiset(s) == multiset(t) && DistinctNames(s)
    ensures Sort(s) == Sort(t)
  {
    NamesOrder();
    forall v, w | v in s && w in s && NameLeq(v, w) && NameLeq(w, v) ensures v == w {
      TextOrder.LeqIsTotalOrder(v.node.name, w.node.name, []);
    }
    Sorting.SortIgnoresOrder(s, t, NameLeq);
  }

  function Recorded(visits: seq<Visit>, manifestName: seq<Byte>): (r: seq<Node>) {
    if visits == [] then []
    else
      var last := visits[|visits| - 1].node;
      Recorded(visits[..|visits| - 1], manifestName) + (if last.name == manifestName then [] else [last])
  }

  // The trust rules in octal digits: the rest of a mode is the node's own.
  ghost predicate Unwritable(mode: nat) {
    mode / 8 % 8 in {0, 1, 4, 5} && mode % 8 in {0, 1, 4, 5}
  }

  ghost predicate WithinRules(v: Visit) {
    && v.trustedOwner && !v.special
    && (v.node.Link? ==> v.internalTarget)
    && (!v.node.Link? ==> Unwritable(v.node.mode))
    && (v.node.Directory? ==> v.node.mode % 8 in {1, 5})
    && (v.node.File? ==> v.links == 1)
  }

  lemma {:induction false} TrustedIsWithinRules(v: Visit)
    ensures Trusted(v) <==> WithinRules(v)
  {
    ModeBits(v.node.mode);
  }

  ghost predicate AllTrusted(visits: seq<Visit>, manifestName: seq<Byte>) {
    forall v :: v in visits && v.node.name != manifestName ==> WithinRules(v)
  }

  // Walk the tree, sort the paths, and feed the framed entries.
  method TreeStream(walked: seq<Visit>, manifestName: seq<Byte>) returns (r: Result<seq<Byte>, string>)
    ensures r.Ok? <==> AllTrusted(walked, manifestName)
    ensures r.Ok? ==> r.value == Stream(Recorded(Sort(walked), manifestName))
  {
    var visits := Sort(walked);
    forall v ensures v in visits <==> v in walked { Sorting.SortKeeps(walked, NameLeq, v); }
    r := SortedStream(visits, manifestName);
  }

  method SortedStream(visits: seq<Visit>, manifestName: seq<Byte>) returns (r: Result<seq<Byte>, string>)
    ensures r.Ok? <==> AllTrusted(visits, manifestName)
    ensures r.Ok? ==> r.value == Stream(Recorded(visits, manifestName))
  {
    var digest: seq<Byte> := [];
    for i := 0 to |visits|
      invariant forall k :: 0 <= k < i && visits[k].node.name != manifestName ==> WithinRules(visits[k])
      invariant digest == Stream(Recorded(visits[..i], manifestName))
    {
      var v := visits[i];
      assert visits[..i + 1][..i] == visits[..i];
      ghost var before := Recorded(visits[..i], manifestName);
      if v.node.name == manifestName {
        assert Recorded(visits[..i + 1], manifestName) == before + [] == before;
        continue;
      }
      TrustedIsWithinRules(v);
      if !Trusted(v) {
        return Err("media_runtime_untrusted");
      }
      assert (before + [v.node])[..|before|] == before;
      assert Stream(before + [v.node]) == Stream(before) + EntryStream(v.node);
      digest := Feed(digest, Fields(v.node));
      assert Recorded(visits[..i + 1], manifestName) == before + [v.node];
    }
    assert visits[..|visits|] == visits;
    return Ok(digest);
  }

  // Field after field is appended to what the hash has seen.
  method Feed(digest: seq<Byte>, fields: seq<seq<Byte>>) returns (r: seq<Byte>)
    ensures r == digest + FieldStream(fields)
  {
    r := digest;
    for i := 0 to |fields|
      invariant r + FieldStream(fields[i..]) == digest + FieldStream(fields)
    {
      r := r + Field(fields[i]);
      assert fields[i..][1..] == fields[i + 1..];
    }
  }

  // ----- reading the stream -----

  // A field read from the front of a stream: eight bytes of length, then as many bytes.
  function ReadField(s: seq<Byte>): Option<(seq<Byte>, seq<Byte>)> {
    if |s| < 8 || Unsigned(s[..8]) > |s| - 8 then None
    else Some((s[8..8 + Unsigned(s[..8])], s[8 + Unsigned(s[..8])..]))
  }

  lemma {:induction false} FieldReadsBack(value: seq<Byte>, rest: seq<Byte>)
    requires |value| < Power(256, 8)
    ensures ReadField(Field(value) + rest) == Some((value, rest))
  {
    var s := Field(value) + rest;
    BigEndianRoundTrip(|value|, 8);
    assert s[..8] == BigEndian(|value|, 8);
    assert s[8..8 + |value|] == value && s[8 + |value|..] == rest;
  }

  // An entry reads back as its kind, its name, its mode in octal, and what it is: the target of a link,
  // or the decimal size and the digest of a file.
  lemma {:induction false} EntryReadsBack(n: Node, rest: seq<Byte>)
    returns (fields: seq<seq<Byte>>, rests: seq<seq<Byte>>)
    requires Fits(n)
    ensures |fields| == 4 && |rests| == 5 && rests[0] == EntryStream(n) + rest && rests[4] == rest
    ensures forall i :: 0 <= i < 4 ==> ReadField(rests[i]) == Some((fields[i], rests[i + 1]))
    ensures fields[0] == match n
                         case Link(_, _, _) => [108, 105, 110, 107]
                         case Directory(_, _) => [100, 105, 114, 101, 99, 116, 111, 114, 121]
                         case File(_, _, _, _) => [102, 105, 108, 101]
    ensures fields[1] == n.name && NumeralValue(fields[2], 8) == n.mode
    ensures n.Link? ==> fields[3] == n.target
    ensures n.Directory? ==> fields[3] == []
    ensures n.File? ==>
      exists size :: NumeralValue(size, 10) == n.size && fields[3] == size + [58] + n.sha256
  {
    fields := Fields(n);
    var fourth := rest;
    var third := Field(fields[3]) + rest;
    var second := Field(fields[2]) + third;
    var first := Field(fields[1]) + second;
    rests := [EntryStream(n) + rest, first, second, third, rest];
    assert fields[1..][0] == fields[1] && fields[2..][0] == fields[2] && fields[3..][0] == fields[3];
    assert fields[1..][1..] == fields[2..] && fields[2..][1..] == fields[3..] && fields[3..][1..] == [];
    FieldStreamFront(fields, rest);
    FieldStreamFront(fields[1..], rest);
    FieldStreamFront(fields[2..], rest);
    FieldStreamFront(fields[3..], rest);
    assert FieldStream([]) + rest == rest;
    forall i | 0 <= i < 4 ensures ReadField(rests[i]) == Some((fields[i], rests[i + 1])) {
      FieldReadsBack(fields[i], rests[i + 1]);
    }
    NumeralRoundTrip(n.mode, 8);
    if n.File? {
      NumeralRoundTrip(n.size, 10);
    }
  }

  // ----- unique decoding -----

  // A field can be cut off the front of a stream in one way only.
  lemma {:induction false} FieldCut(a: seq<Byte>, b: seq<Byte>, s: seq<Byte>, t: seq<Byte>)
    requires |a| < Power(256, 8) && |b| < Power(256, 8)
    requires Field(a) + s == Field(b) + t
    ensures a == b && s == t
  {
    var x, y := Field(a) + s, Field(b) + t;
    assert x[..8] == BigEndian(|a|, 8) && y[..8] == BigEndian(|b|, 8);
    BigEndianRoundTrip(|a|, 8);
    BigEndianRoundTrip(|b|, 8);
    assert x[8..8 + |a|] == a && y[8..8 + |b|] == b;
    assert x[8 + |a|..] == s && y[8 + |b|..] == t;
  }

  lemma {:induction false} NumeralInjective(m: nat, n: nat, base: nat)
    requires 2 <= base <= 10 && Numeral(m, base) == Numeral(n, base)
    ensures m == n
  {
    NumeralRoundTrip(m, base);
    NumeralRoundTrip(n, base);
  }

  // The decimal size ends at the first colon.
  lemma {:induction false} FilePayloadCut(m: nat, n: nat, s: seq<Byte>, t: seq<Byte>)
    requires Numeral(m, 10) + [COLON] + s == Numeral(n, 10) + [COLON] + t
    ensures m == n && s == t
  {
    var a, b := Numeral(m, 10), Numeral(n, 10);
    var x, y := a + [COLON] + s, b + [COLON] + t;
    assert x[|a|] == COLON && y[|b|] == COLON;
    assert forall i :: 0 <= i < |a| ==> x[i] == a[i];
    assert forall i :: 0 <= i < |b| ==> y[i] == b[i];
    assert |a| == |b|;
    assert x[..|a|] == a && y[..|b|] == b && x[|a| + 1..] == s && y[|b| + 1..] == t;
    NumeralInjective(m, n, 10);
  }

  lemma {:induction false} FieldsDetermineNode(m: Node, n: Node)
    requires Fields(m) == Fields(n)
    ensures m == n
  {
    assert Fields(m)[0] == Fields(n)[0] && Fields(m)[1] == Fields(n)[1] && Fields(m)[2] == Fields(n)[2]
      && Fields(m)[3] == Fields(n)[3];
    NumeralInjective(m.mode, n.mode, 8);
    assert |LINK| == 4 && |DIRECTORY| == 9 && LINK[0] != FILE[0];
    if m.File? { FilePayloadCut(m.size, n.size, m.sha256, n.sha256); }
  }

  lemma {:induction false} FieldStreamFront(f: seq<seq<Byte>>, s: seq<Byte>)
    requires f != []
    ensures FieldStream(f) + s == Field(f[0]) + (FieldStream(f[1..]) + s)
  {}

  // Equally many fields can be cut off the front of a stream in one way only.
  lemma {:induction false} FieldStreamCut(f: seq<seq<Byte>>, g: seq<seq<Byte>>, s: seq<Byte>, t: seq<Byte>)
    requires |f| == |g| && forall i :: 0 <= i < |f| ==> |f[i]| < Power(256, 8) && |g[i]| < Power(256, 8)
    requires FieldStream(f) + s == FieldStream(g) + t
    ensures f == g && s == t
  {
    if f != [] {
      var u, v := FieldStream(f[1..]) + s, FieldStream(g[1..]) + t;
      FieldStreamFront(f, s);
      FieldStreamFront(g, t);
      FieldCut(f[0], g[0], u, v);
      FieldStreamCut(f[1..], g[1..], s, t);
      assert f == [f[0]] + f[1..] && g == [g[0]] + g[1..];
    } else {
      assert FieldStream(f) + s == s && FieldStream(g) + t == t;
    }
  }

  // An entry can be cut off the front of a stream in one way only.
  lemma {:induction false} EntryCut(m: Node, n: Node, s: seq<Byte>, t: seq<Byte>)
    requires Fits(m) && Fits(n) && EntryStream(m) + s == EntryStream(n) + t
    ensures m == n && s == t
  {
    FieldStreamCut(Fields(m), Fields(n), s, t);
    FieldsDetermineNode(m, n);
  }

  lemma {:induction false} StreamFront(nodes: seq<Node>)
    requires nodes != []
    ensures Stream(nodes) == EntryStream(nodes[0]) + Stream(nodes[1..])
  {
    var init := nodes[..|nodes| - 1];
    if init == [] {
      assert nodes[1..] == [];
    } else {
      StreamFront(init);
      assert nodes[1..][..|nodes| - 2] == init[1..];
    }
  }

  lemma {:induction false} EntryIsNotEmpty(n: Node, s: seq<Byte>)
    ensures EntryStream(n) + s != []
  {}

  // The hashed bytes determine the whole sequence of kinds, names, modes and payloads.
  lemma {:induction false} StreamDeterminesTree(a: seq<Node>, b: seq<Node>)
    requires forall i :: 0 <= i < |a| ==> Fits(a[i])
    requires forall i :: 0 <= i < |b| ==> Fits(b[i])
    requires Stream(a) == Stream(b)
    ensures a == b
  {
    if a != [] { StreamFront(a); EntryIsNotEmpty(a[0], Stream(a[1..])); }
    if b != [] { StreamFront(b); EntryIsNotEmpty(b[0], Stream(b[1..])); }
    if a == [] {
    } else {
      EntryCut(a[0], b[0], Stream(a[1..]), Stream(b[1..]));
      StreamDeterminesTree(a[1..], b[1..]);
      assert a == [a[0]] + a[1..] && b == [b[0]] + b[1..];
    }
  }
}
