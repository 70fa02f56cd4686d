// The narrow P6 frames written and parsed by the detection scripts
// (prepare_v02_detection_dataset.py, run_v02_detection_benchmark.py).
module Ppm {
  import opened Wrappers
  import opened Bytes

  const NEWLINE: Byte := 10
  const SPACE: Byte := 32
  const MAGIC: seq<Byte> := [80, 54]
  const DEPTH: seq<Byte> := [50, 53, 53]

  // `bytes.partition`: the part before the first separator and the part after it.
  function Partition(raw: seq<Byte>, separator: Byte): Option<(seq<Byte>, seq<Byte>)> {
    if raw == [] then None
    else if raw[0] == separator then Some(([], raw[1..]))
    else
      match Partition(raw[1..], separator)
      case None => None
      case Some((first, rest)) => Some(([raw[0]] + first, rest))
  }

  // The parts of a partition are the only way to cut at a first separator.
  lemma {:induction false} PartitionMeaning(raw: seq<Byte>, separator: Byte, first: seq<Byte>, rest: seq<Byte>)
    ensures Partition(raw, separator) == Some((first, rest))
            <==> raw == first + [separator] + rest && separator !in first
  {
    if raw != [] && raw[0] != separator {
      if first != [] {
        PartitionMeaning(raw[1..], separator, first[1..], rest);
        assert first == [first[0]] + first[1..];
        assert first + [separator] + rest == [first[0]] + (first[1..] + [separator] + rest);
      }
    } else if raw != [] {
      assert [] + [separator] + rest == [separator] + rest;
      if first != [] { assert (first + [separator] + rest)[0] == first[0]; }
      assert raw == [raw[0]] + raw[1..];
    }
  }

  // ----- Python's int() of a byte string -----

  predicate Blank(b: Byte) {
    b == 32 || 9 <= b <= 13
  }

  function TrimLeft(s: seq<Byte>): seq<Byte> {
    if s != [] && Blank(s[0]) then TrimLeft(s[1..]) else s
  }

  function TrimRight(s: seq<Byte>): seq<Byte> {
    if s != [] && Blank(s[|s| - 1]) then TrimRight(s[..|s| - 1]) else s
  }

  // Digits, with single underscores allowed between them.
  function Decimal(s: seq<Byte>): Option<nat> {
    if s == [] || !(48 <= s[|s| - 1] <= 57) then None
    else
      var digit := s[|s| - 1] - 48;
      if |s| == 1 then Some(digit)
      else
        match Decimal(if s[|s| - 2] == 95 then s[..|s| - 2] else s[..|s| - 1])
        case None => None
        case Some(v) => Some(10 * v + digit)
  }

  function PythonInt(s: seq<Byte>): Option<int> {
    var t := TrimRight(TrimLeft(s));
    if t == [] then None
    else if t[0] != 43 && t[0] != 45 then
      match Decimal(t)
      case None => None
      case Some(v) => Some(v as int)
    else
      match Decimal(t[1..])
      case None => None
      case Some(v) => Some(if t[0] == 43 then v as int else -(v as int))
  }

  // Digits and underscores, beginning and ending with a digit, no underscore next to another.
  ghost predicate IsDecimal(s: seq<Byte>) {
    && s != [] && s[0] != 95 && s[|s| - 1] != 95
    && (forall i :: 0 <= i < |s| ==> 48 <= s[i] <= 57 || s[i] == 95)
    && forall i :: 0 < i < |s| ==> !(s[i] == 95 && s[i - 1] == 95)
  }

  function Digits(s: seq<Byte>): seq<Byte> {
    if s == [] then []
    else Digits(s[..|s| - 1]) + if s[|s| - 1] == 95 then [] else [s[|s| - 1]]
  }

  // Exactly these are numbers.
  lemma {:induction false} DecimalMeaning(s: seq<Byte>)
    ensures Decimal(s).Some? <==> IsDecimal(s)
  {
    if |s| > 1 {
      var last := |s| - 1;
      var shorter := if s[last - 1] == 95 then s[..last - 1] else s[..last];
      DecimalMeaning(shorter);
      if IsDecimal(s) || Decimal(s).Some? {
        assert IsDecimal(shorter);
      }
    }
  }

  lemma {:induction false} DigitsStep(s: seq<Byte>)
    requires |s| > 1 && s[|s| - 1] != 95
    ensures Digits(s) == Digits(if s[|s| - 2] == 95 then s[..|s| - 2] else s[..|s| - 1]) + [s[|s| - 1]]
  {
    var shorter := s[..|s| - 1];
    if s[|s| - 2] == 95 {
      assert shorter[..|shorter| - 1] == s[..|s| - 2];
    }
  }

  // An underscore does not change the value.
  lemma {:induction false} DecimalValue(s: seq<Byte>)
    requires Decimal(s).Some?
    ensures Decimal(s).value == NumeralValue(Digits(s), 10)
  {
    var last := |s| - 1;
    if last == 0 {
      assert Digits(s) == [s[0]] by { assert s[..0] == []; }
      NumeralValueAppend([], 10, s[0]);
      assert [] + [s[0]] == [s[0]];
    } else {
      var shorter := if s[last - 1] == 95 then s[..last - 1] else s[..last];
      DecimalValue(shorter);
      DigitsStep(s);
      NumeralValueAppend(Digits(shorter), 10, s[last]);
    }
  }

  ghost predicate Blanks(s: seq<Byte>) {
    forall i :: 0 <= i < |s| ==> s[i] in {9, 10, 11, 12, 13, 32}
  }

  // White space is cut off both ends.
  lemma {:induction false} Trimmed(left: seq<Byte>, core: seq<Byte>, right: seq<Byte>)
    requires Blanks(left) && Blanks(right)
    requires core != [] && !Blank(core[0]) && !Blank(core[|core| - 1])
    ensures TrimRight(TrimLeft(left + core + right)) == core
  {
    if left != [] {
      assert (left + core + right)[1..] == left[1..] + core + right;
      Trimmed(left[1..], core, right);
    } else {
      assert left + core + right == core + right;
      TrimmedRight(core, right);
    }
  }

  lemma {:induction false} TrimmedRight(core: seq<Byte>, right: seq<Byte>)
    requires Blanks(right)
    requires core != [] && !Blank(core[|core| - 1])
    ensures TrimRight(core + right) == core
  {
    if right != [] {
      var last := |right| - 1;
      assert (core + right)[..|core| + last] == core + right[..last];
      TrimmedRight(core, right[..last]);
    } else {
      assert core + right == core;
    }
  }

  // Such a number may have one sign and white space around it.
  lemma {:induction false} IntMeaning(left: seq<Byte>, digits: seq<Byte>, right: seq<Byte>)
    requires Blanks(left) && Blanks(right) && IsDecimal(digits)
    ensures PythonInt(left + digits + right) == Some(NumeralValue(Digits(digits), 10))
    ensures PythonInt(left + ([43] + digits) + right) == Some(NumeralValue(Digits(digits), 10))
    ensures PythonInt(left + ([45] + digits) + right) == Some(-NumeralValue(Digits(digits), 10))
  {
    DecimalMeaning(digits);
    DecimalValue(digits);
    Trimmed(left, digits, right);
    SignedInt(left, 43, digits, right);
    SignedInt(left, 45, digits, right);
  }

  lemma {:induction false} SignedInt(left: seq<Byte>, sign: Byte, digits: seq<Byte>, right: seq<Byte>)
    requires Blanks(left) && Blanks(right) && IsDecimal(digits) && sign in {43, 45}
    requires Decimal(digits).Some?
    ensures var v := Decimal(digits).value;
            PythonInt(left + ([sign] + digits) + right) == Some(if sign == 43 then v as int else -(v as int))
  {
    var core := [sign] + digits;
    assert core[1..] == digits && core[|core| - 1] == digits[|digits| - 1];
    Trimmed(left, core, right);
  }

  // Nothing else is a number.
  lemma {:induction false} IntHasParts(s: seq<Byte>) returns (left: seq<Byte>, core: seq<Byte>, right: seq<Byte>)
    requires PythonInt(s).Some?
    ensures s == left + core + right && Blanks(left) && Blanks(right)
    ensures core != [] && IsDecimal(if core[0] in {43, 45} then core[1..] else core)
  {
    var t := TrimLeft(s);
    core := TrimRight(t);
    left := LeftPart(s);
    right := RightPart(t);
    DecimalMeaning(if core[0] in {43, 45} then core[1..] else core);
  }

  lemma {:induction false} LeftPart(s: seq<Byte>) returns (left: seq<Byte>)
    ensures s == left + TrimLeft(s) && Blanks(left)
  {
    if s != [] && Blank(s[0]) {
      var rest := LeftPart(s[1..]);
      left := [s[0]] + rest;
    } else {
      left := [];
    }
  }

  lemma {:induction false} RightPart(s: seq<Byte>) returns (right: seq<Byte>)
    ensures s == TrimRight(s) + right && Blanks(right)
  {
    if s != [] && Blank(s[|s| - 1]) {
      var rest := RightPart(s[..|s| - 1]);
      right := rest + [s[|s| - 1]];
    } else {
      right := [];
    }
  }

  lemma {:induction false} DecimalOfNumeral(n: nat)
    ensures Decimal(Numeral(n, 10)) == Some(n)
  {
    var s := Numeral(n, 10);
    if n < 10 {
    } else {
      DecimalOfNumeral(n / 10);
      assert s[..|s| - 1] == Numeral(n / 10, 10);
    }
  }

  // A written number reads back.
  lemma {:induction false} IntOfNumeral(n: nat)
    ensures PythonInt(Numeral(n, 10)) == Some(n)
  {
    DecimalOfNumeral(n);
  }

  // ----- frames -----

  datatype Image = Image(width: int, height: int, pixels: seq<Byte>)

  predicate Admissible(i: Image) {
    1 <= i.width <= 4096 && 1 <= i.height <= 4096 && |i.pixels| == i.width * i.height * 3
  }

  function Header(width: nat, height: nat): seq<Byte> {
    MAGIC + [NEWLINE] + (Numeral(width, 10) + [SPACE] + Numeral(height, 10) + [NEWLINE] + (DEPTH + [NEWLINE]))
  }

  function Write(width: nat, height: nat, pixels: seq<Byte>): seq<Byte> {
    Header(width, height) + pixels
  }

  // Exactly one space between two numbers.
  function Dimensions(s: seq<Byte>): Option<(int, int)> {
    match Partition(s, SPACE)
    case None => None
    case Some((width, height)) =>
      if SPACE in height then None
      else
        match PythonInt(width)
        case None => None
        case Some(w) =>
          match PythonInt(height)
          case None => None
          case Some(h) => Some((w, h))
  }

  function Parse(raw: seq<Byte>): Result<Image, string> {
    match Partition(raw, NEWLINE)
    case None => Err("invalid_decoder_output")
    case Some((first, rest)) =>
      match Partition(rest, NEWLINE)
      case None => Err("invalid_decoder_output")
      case Some((dimensions, body)) =>
        match Partition(body, NEWLINE)
        case None => Err("invalid_decoder_output")
        case Some((maximum, pixels)) =>
          if first != MAGIC || maximum != DEPTH then Err("invalid_decoder_output")
          else
            match Dimensions(dimensions)
            case None => Err("invalid_decoder_output")
            case Some((width, height)) =>
              var image := Image(width, height, pixels);
              if Admissible(image) then Ok(image) else Err("invalid_decoder_output")
  }

  lemma {:induction false} DimensionsOfNumerals(width: nat, height: nat)
    ensures Dimensions(Numeral(width, 10) + [SPACE] + Numeral(height, 10)) == Some((width, height))
    ensures NEWLINE !in Numeral(width, 10) + [SPACE] + Numeral(height, 10)
  {
    var first, second := Numeral(width, 10), Numeral(height, 10);
    PartitionMeaning(first + [SPACE] + second, SPACE, first, second);
    IntOfNumeral(width);
    IntOfNumeral(height);
  }

  // A frame that was written reads back exactly when its size is admissible, whatever bytes
  // its pixels are.
  lemma {:induction false} WrittenReadsBack(width: nat, height: nat, pixels: seq<Byte>)
    ensures Parse(Write(width, height, pixels)) ==
            if 1 <= width <= 4096 && 1 <= height <= 4096 && |pixels| == width * height * 3
            then Ok(Image(width, height, pixels)) else Err("invalid_decoder_output")
  {
    var dimensions := Numeral(width, 10) + [SPACE] + Numeral(height, 10);
    var body := DEPTH + [NEWLINE] + pixels;
    var rest := dimensions + [NEWLINE] + body;
    assert Write(width, height, pixels) == MAGIC + [NEWLINE] + rest;
    DimensionsOfNumerals(width, height);
    PartitionMeaning(MAGIC + [NEWLINE] + rest, NEWLINE, MAGIC, rest);
    PartitionMeaning(rest, NEWLINE, dimensions, body);
    PartitionMeaning(body, NEWLINE, DEPTH, pixels);
  }

  function Framed(dimensions: seq<Byte>, pixels: seq<Byte>): seq<Byte> {
    MAGIC + [NEWLINE] + (dimensions + [NEWLINE] + (DEPTH + [NEWLINE] + pixels))
  }

  // Exactly these are accepted: three header lines, two numbers that fit, and the pixels.
  lemma {:induction false} AcceptedAreFrames(raw: seq<Byte>, image: Image)
    ensures Parse(raw) == Ok(image) <==>
            && 1 <= image.width <= 4096 && 1 <= image.height <= 4096
            && |image.pixels| == image.width * image.height * 3
            && exists dimensions ::
                 Dimensions(dimensions) == Some((image.width, image.height)) && NEWLINE !in dimensions
                 && raw == Framed(dimensions, image.pixels)
  {
    if Parse(raw) == Ok(image) {
      var (first, rest) := Partition(raw, NEWLINE).value;
      PartitionMeaning(raw, NEWLINE, first, rest);
      var (text, body) := Partition(rest, NEWLINE).value;
      PartitionMeaning(rest, NEWLINE, text, body);
      var (maximum, pixels) := Partition(body, NEWLINE).value;
      PartitionMeaning(body, NEWLINE, maximum, pixels);
      assert raw == Framed(text, image.pixels);
    }
    if dimensions :| Admissible(image) && Dimensions(dimensions) == Some((image.width, image.height))
                     && NEWLINE !in dimensions && raw == Framed(dimensions, image.pixels)
    {
      var body := DEPTH + [NEWLINE] + image.pixels;
      PartitionMeaning(raw, NEWLINE, MAGIC, dimensions + [NEWLINE] + body);
      PartitionMeaning(dimensions + [NEWLINE] + body, NEWLINE, dimensions, body);
      PartitionMeaning(body, NEWLINE, DEPTH, image.pixels);
    }
  }
}
