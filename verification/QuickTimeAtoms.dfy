// Length-prefixed atoms of the QuickTime and ISO base media file format (ISO/IEC 14496-12,
// section 4.2), and a reader that recovers them.
module QuickTimeAtoms {
  import opened Wrappers
  import opened Bytes

  datatype Atom = Atom(kind: seq<Byte>, payload: seq<Byte>)

  function U32(n: nat): seq<Byte> { BigEndian(n, 4) }
  function U16(n: nat): seq<Byte> { BigEndian(n, 2) }

  function Encode(a: Atom): (r: seq<Byte>)
    ensures |r| == 4 + |a.kind| + |a.payload|
  {
    U32(|a.payload| + 8) + a.kind + a.payload
  }

  // Atoms written one after another.
  function EncodeAll(atoms: seq<Atom>): seq<Byte> {
    if atoms == [] then [] else Encode(atoms[0]) + EncodeAll(atoms[1..])
  }

  // A full box starts its payload with a version byte and three flag bytes.
  function FullBox(kind: seq<Byte>, version: Byte, flags: nat, payload: seq<Byte>): Atom {
    Atom(kind, [version] + BigEndian(flags, 3) + payload)
  }

  // The writer refuses a kind of other than four bytes and a size beyond 32 bits.
  predicate Encodable(a: Atom) {
    |a.kind| == 4 && |a.payload| + 8 <= 0xFFFF_FFFF
  }

  // Read a payload back as a list of atoms.
  function Parse(raw: seq<Byte>): Option<seq<Atom>>
    decreases |raw|
  {
    if raw == [] then Some([])
    else if |raw| < 8 then None
    else
      var size := Unsigned(raw[..4]);
      if size < 8 || size > |raw| then None
      else
        match Parse(raw[size..])
        case None => None
        case Some(rest) => Some([Atom(raw[4..8], raw[8..size])] + rest)
  }

  lemma {:induction false} ParseFirst(a: Atom, rest: seq<Byte>)
    requires Encodable(a) && Parse(rest).Some?
    ensures Parse(Encode(a) + rest) == Some([a] + Parse(rest).value)
  {
    var raw, size := Encode(a) + rest, |a.payload| + 8;
    Powers();
    BigEndianRoundTrip(size, 4);
    assert raw[..4] == U32(size) && raw[4..8] == a.kind && raw[8..size] == a.payload && raw[size..] == rest;
  }

  // Reading inverts writing.
  lemma {:induction false} ParseInvertsEncode(atoms: seq<Atom>)
    requires forall i :: 0 <= i < |atoms| ==> Encodable(atoms[i])
    ensures Parse(EncodeAll(atoms)) == Some(atoms)
  {
    if atoms == [] {
    } else {
      ParseInvertsEncode(atoms[1..]);
      ParseFirst(atoms[0], EncodeAll(atoms[1..]));
      assert atoms == [atoms[0]] + atoms[1..];
    }
  }

  // A payload is shorter than the atoms around it.
  lemma {:induction false} PayloadWithin(atoms: seq<Atom>, i: nat)
    requires i < |atoms| && |atoms[i].kind| == 4
    ensures |atoms[i].payload| + 8 <= |EncodeAll(atoms)|
  {
    if i == 0 {
    } else {
      PayloadWithin(atoms[1..], i - 1);
    }
  }

  ghost predicate FourByteKinds(atoms: seq<Atom>) {
    forall i :: 0 <= i < |atoms| ==> |atoms[i].kind| == 4
  }

  // Within a file below four gigabytes every nested list of atoms reads back.
  lemma {:induction false} ParseWithin(atoms: seq<Atom>, limit: nat)
    requires FourByteKinds(atoms) && |EncodeAll(atoms)| <= limit <= 0xFFFF_FFFF
    ensures Parse(EncodeAll(atoms)) == Some(atoms)
    ensures forall i :: 0 <= i < |atoms| ==> |atoms[i].payload| <= limit
  {
    forall i | 0 <= i < |atoms| ensures |atoms[i].payload| + 8 <= |EncodeAll(atoms)| {
      PayloadWithin(atoms, i);
    }
    ParseInvertsEncode(atoms);
  }

  // The payload of the first atom of the given kind.
  function Child(raw: seq<Byte>, kind: seq<Byte>): Option<seq<Byte>> {
    match Parse(raw)
    case None => None
    case Some(atoms) => First(atoms, kind)
  }

  function First(atoms: seq<Atom>, kind: seq<Byte>): Option<seq<Byte>> {
    if atoms == [] then None
    else if atoms[0].kind == kind then Some(atoms[0].payload)
    else First(atoms[1..], kind)
  }

  // Descending through nested atoms.
  function Descend(raw: seq<Byte>, path: seq<seq<Byte>>): Option<seq<Byte>>
    decreases |path|
  {
    if path == [] then Some(raw)
    else
      match Child(raw, path[0])
      case None => None
      case Some(payload) => Descend(payload, path[1..])
  }
}
