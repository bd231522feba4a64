/** The two hand-written base64 encoders: URL-safe without padding for client secrets, standard with
    padding for mail headers. Decoding follows sections 4 and 5 of RFC 4648. */
module Base64 {
  import opened Bits
  import opened Common

  type Byte = x: int | 0 <= x < 256

  type Quad = s: string | |s| == 4 witness "AAAA"

  // ---- Grouping: three bytes make four characters, whatever the characters are --------------

  type Speller = (Byte, Byte, Byte) -> Quad

  type Reader = string -> Option<seq<int>>

  /** Spells a byte string group by group; a last group of one or two bytes gives two or three
      characters, filled up when padding is asked for. */
  function Spell(b: seq<Byte>, quad: Speller, pad: bool): string {
    if b == [] then ""
    else if |b| == 1 then quad(b[0], 0, 0)[..2] + if pad then "==" else ""
    else if |b| == 2 then quad(b[0], b[1], 0)[..3] + if pad then "=" else ""
    else quad(b[0], b[1], b[2]) + Spell(b[3..], quad, pad)
  }

  function Unspell(s: string, read: Reader, pad: bool): Option<seq<int>>
    decreases |s|
  {
    if s == [] then Some([])
    else if pad && |s| < 4 then None
    else if pad && s[2..] == "==" then read(s[..2])
    else if pad && s[3..] == "=" then read(s[..3])
    else if |s| < 4 then read(s)
    else
      var group, rest := read(s[..4]), Unspell(s[4..], read, pad);
      if group.None? || rest.None? then None else Some(group.value + rest.value)
  }

  /** A reader undoes a speller on groups of every size. */
  ghost predicate Undoes(read: Reader, quad: Speller) {
    forall x: Byte, y: Byte, z: Byte ::
      && '=' !in quad(x, y, z) && read(quad(x, y, z)) == Some([x, y, z])
      && read(quad(x, y, z)[..3]) == Some([x, y]) && read(quad(x, y, z)[..2]) == Some([x])
  }

  lemma {:induction false} SpellRoundTrip(b: seq<Byte>, quad: Speller, read: Reader, pad: bool)
    requires Undoes(read, quad)
    ensures Unspell(Spell(b, quad, pad), read, pad) == Some(b)
  {
    if b != [] {
      var s := Spell(b, quad, pad);
      if |b| == 1 {
        assert pad ==> s[2..] == "==";
        assert !pad ==> s == s[..2];
        assert s[..2] == quad(b[0], 0, 0)[..2] && b == [b[0]];
      } else if |b| == 2 {
        assert s[2] == quad(b[0], b[1], 0)[2];
        assert pad ==> s[3..] == "=";
        assert !pad ==> s == s[..3];
        assert s[..3] == quad(b[0], b[1], 0)[..3] && b == [b[0], b[1]];
      } else {
        var q := quad(b[0], b[1], b[2]);
        assert s[..4] == q && s[4..] == Spell(b[3..], quad, pad);
        assert s[2] == q[2] && s[3] == q[3];
        SpellRoundTrip(b[3..], quad, read, pad);
        assert [b[0], b[1], b[2]] + b[3..] == b;
      }
    }
  }

  lemma {:induction false} SpellLength(b: seq<Byte>, quad: Speller, pad: bool)
    ensures |Spell(b, quad, pad)| == if pad then (|b| + 2) / 3 * 4 else (4 * |b| + 2) / 3
  {
    if |b| > 2 {
      SpellLength(b[3..], quad, pad);
    }
  }

  /** The first group, and then the rest. */
  lemma SpellGroup(b: seq<Byte>, i: nat, quad: Speller, pad: bool)
    requires i < |b|
    ensures var j := Min(i + 3, |b|); Spell(b[i..], quad, pad) == Spell(b[i..j], quad, pad) + Spell(b[j..], quad, pad)
  {
  }

  /** One group, character by character. */
  lemma SpellOne(b: seq<Byte>, quad: Speller, pad: bool, q: string)
    requires 1 <= |b| <= 3 && q == quad(b[0], if |b| > 1 then b[1] else 0, if |b| > 2 then b[2] else 0)
    ensures Spell(b, quad, pad) == q[..|b| + 1] + if pad then "=="[..3 - |b|] else ""
  {
  }

  function Standardised(c: char): char { if c == '-' then '+' else if c == '_' then '/' else c }

  function Translated(s: string): (t: string)
    ensures |t| == |s| && forall i :: 0 <= i < |s| ==> t[i] == Standardised(s[i])
  {
    seq(|s|, i requires 0 <= i < |s| => Standardised(s[i]))
  }

  function Filler(n: nat): string {
    if n % 4 == 2 then "==" else if n % 4 == 3 then "=" else ""
  }

  lemma TranslatedConcat(s: string, t: string)
    ensures Translated(s + t) == Translated(s) + Translated(t)
  {
  }

  lemma TranslatedPrefix(s: string, k: nat)
    requires k <= |s|
    ensures Translated(s[..k]) == Translated(s)[..k]
  {
  }

  lemma {:induction false} SpellTranslated(b: seq<Byte>, quad: Speller, std: Speller)
    requires forall x: Byte, y: Byte, z: Byte :: std(x, y, z) == Translated(quad(x, y, z))
    ensures var s := Spell(b, quad, false); Spell(b, std, true) == Translated(s) + Filler(|s|)
  {
    if |b| > 2 {
      SpellTranslated(b[3..], quad, std);
      var q, rest := quad(b[0], b[1], b[2]), Spell(b[3..], quad, false);
      TranslatedConcat(q, rest);
      assert Filler(|q + rest|) == Filler(|rest|);
      assert Translated(q) + (Translated(rest) + Filler(|rest|)) == (Translated(q) + Translated(rest)) + Filler(|rest|);
    } else if |b| == 2 {
      TranslatedPrefix(quad(b[0], b[1], 0), 3);
      assert Spell(b, quad, false) == quad(b[0], b[1], 0)[..3];
    } else if |b| == 1 {
      TranslatedPrefix(quad(b[0], 0, 0), 2);
      assert Spell(b, quad, false) == quad(b[0], 0, 0)[..2];
    }
  }

  // ---- One group: shifts, masks and the alphabet ----------------------------------------------

  datatype Alphabet = Url | Std

  /** The character of a six-bit value: letters, digits, and two that depend on the alphabet. */
  function Letter(v: nat, a: Alphabet): char
    requires v < 64
  {
    if v < 26 then (65 + v) as char
    else if v < 52 then (71 + v) as char
    else if v < 62 then (v - 4) as char
    else if v == 62 then (if a == Url then '-' else '+')
    else if a == Url then '_' else '/'
  }

  function Value(c: char, a: Alphabet): Option<nat> {
    if 'A' <= c <= 'Z' then Some(c as int - 65)
    else if 'a' <= c <= 'z' then Some(c as int - 71)
    else if '0' <= c <= '9' then Some(c as int + 4)
    else if c == Letter(62, a) then Some(62)
    else if c == Letter(63, a) then Some(63)
    else None
  }

  /** The alphabets of RFC 4648, tables 1 and 2: runs of consecutive characters from A, a and 0, and
      then the two that tell the alphabets apart. */
  lemma AlphabetOfTheStandard(v: nat, a: Alphabet)
    requires v < 61
    ensures Letter(0, a) == 'A' && Letter(25, a) == 'Z' && Letter(26, a) == 'a' && Letter(51, a) == 'z'
    ensures Letter(52, a) == '0' && Letter(61, a) == '9'
    ensures v != 25 && v != 51 ==> Letter(v + 1, a) as int == Letter(v, a) as int + 1
    ensures [Letter(62, a), Letter(63, a)] == if a == Url then "-_" else "+/"
  {
  }

  /** Three bytes side by side in one word. */
  function Word(x: Byte, y: Byte, z: Byte): nat { x as int * 0x1_0000 + y as int * 0x100 + z as int }

  /** The four six-bit fields of a 24-bit word, most significant first. */
  function Field(n: nat, k: nat): (v: nat)
    requires k < 4
    ensures v < 64
  {
    (if k == 0 then n / 0x4_0000 else if k == 1 then n / 0x1000 else if k == 2 then n / 0x40 else n) % 0x40
  }

  function Char(n: nat, k: nat, a: Alphabet): char
    requires k < 4
  {
    Letter(Field(n, k), a)
  }

  function QuadOf(a: Alphabet): Speller {
    (x: Byte, y: Byte, z: Byte) =>
      var n := Word(x, y, z); [Char(n, 0, a), Char(n, 1, a), Char(n, 2, a), Char(n, 3, a)]
  }

  function Encode(b: seq<Byte>, a: Alphabet, pad: bool): string { Spell(b, QuadOf(a), pad) }

  /** Two to four characters of an alphabet, read as one to three bytes. */
  function ReadGroup(s: string, a: Alphabet): Option<seq<int>> {
    if !(2 <= |s| <= 4) || exists i :: 0 <= i < |s| && Value(s[i], a).None? then None
    else
      var v := seq(|s|, i requires 0 <= i < |s| => if Value(s[i], a).Some? then Value(s[i], a).value else 0);
      Some([v[0] * 4 + v[1] / 16]
           + (if |v| > 2 then [v[1] % 16 * 16 + v[2] / 4] else [])
           + (if |v| > 3 then [v[2] % 4 * 64 + v[3]] else []))
  }

  function ReaderOf(a: Alphabet): Reader { s => ReadGroup(s, a) }

  function Decode(s: string, a: Alphabet, pad: bool): Option<seq<int>> { Unspell(s, ReaderOf(a), pad) }

  lemma HighFields(x: Byte, y: Byte, z: Byte)
    ensures Field(Word(x, y, z), 0) == x / 4
    ensures Field(Word(x, y, z), 1) == x % 4 * 16 + y / 16
  {
    var n := Word(x, y, z);
    Quotient(n, 0x4_0000, x / 4, x % 4 * 0x1_0000 + y * 0x100 + z);
    Quotient(n, 0x1000, x * 16 + y / 16, y % 16 * 0x100 + z);
    Quotient(x * 16 + y / 16, 64, x / 4, x % 4 * 16 + y / 16);
  }

  lemma LowFields(x: Byte, y: Byte, z: Byte)
    ensures Field(Word(x, y, z), 2) == y % 16 * 4 + z / 64
    ensures Field(Word(x, y, z), 3) == z % 64
  {
    var n := Word(x, y, z);
    Quotient(n, 0x40, x * 1024 + y * 4 + z / 64, z % 64);
    Quotient(x * 1024 + y * 4 + z / 64, 64, x * 16 + y / 16, y % 16 * 4 + z / 64);
  }

  lemma Quotient(n: int, d: int, q: int, r: int)
    requires d in {0x40, 0x1000, 0x4_0000} && n == d * q + r && 0 <= r < d
    ensures n / d == q && n % d == r
  {
  }

  /** Regrouping the fields of a word gives the bytes back. */
  lemma Regroup(x: Byte, y: Byte, z: Byte)
    ensures var n := Word(x, y, z);
            && Field(n, 0) * 4 + Field(n, 1) / 16 == x
            && Field(n, 1) % 16 * 16 + Field(n, 2) / 4 == y
            && Field(n, 2) % 4 * 64 + Field(n, 3) == z
  {
    HighFields(x, y, z);
    LowFields(x, y, z);
  }

  lemma ReadsPrefix(v: seq<nat>, s: string, a: Alphabet)
    requires 2 <= |v| == |s| <= 4 && forall i :: 0 <= i < |v| ==> Value(s[i], a) == Some(v[i])
    ensures ReadGroup(s, a) == Some([v[0] * 4 + v[1] / 16]
                                    + (if |v| > 2 then [v[1] % 16 * 16 + v[2] / 4] else [])
                                    + (if |v| > 3 then [v[2] % 4 * 64 + v[3]] else []))
  {
  }

  lemma QuadLetters(n: nat, q: string, a: Alphabet)
    requires |q| == 4 && forall k :: 0 <= k < 4 ==> q[k] == Letter(Field(n, k), a)
    ensures forall k :: 0 <= k < 4 ==> Value(q[k], a) == Some(Field(n, k)) && q[k] != '='
  {
  }

  lemma ReadsQuad(v: seq<nat>, q: string, x: int, y: int, z: int, a: Alphabet)
    requires |v| == |q| == 4 && forall k :: 0 <= k < 4 ==> Value(q[k], a) == Some(v[k])
    requires v[0] * 4 + v[1] / 16 == x && v[1] % 16 * 16 + v[2] / 4 == y && v[2] % 4 * 64 + v[3] == z
    ensures ReadGroup(q, a) == Some([x, y, z])
    ensures ReadGroup(q[..3], a) == Some([x, y]) && ReadGroup(q[..2], a) == Some([x])
  {
    ReadsPrefix(v, q, a);
    ReadsPrefix(v[..3], q[..3], a);
    ReadsPrefix(v[..2], q[..2], a);
    assert [x] + [y] + [z] == [x, y, z] && [x] + [y] + [] == [x, y] && [x] + [] + [] == [x];
  }

  /** A group reads back as its bytes, and so do its first two or three characters. */
  lemma GroupRoundTrip(x: Byte, y: Byte, z: Byte, a: Alphabet)
    ensures var q := QuadOf(a)(x, y, z);
            && '=' !in q && ReadGroup(q, a) == Some([x, y, z])
            && ReadGroup(q[..3], a) == Some([x, y]) && ReadGroup(q[..2], a) == Some([x])
  {
    var n, q := Word(x, y, z), QuadOf(a)(x, y, z);
    QuadLetters(n, q, a);
    Regroup(x, y, z);
    ReadsQuad([Field(n, 0), Field(n, 1), Field(n, 2), Field(n, 3)], q, x, y, z, a);
  }

  lemma ReaderUndoesQuad(a: Alphabet)
    ensures Undoes(ReaderOf(a), QuadOf(a))
  {
    forall x: Byte, y: Byte, z: Byte
      ensures var q := QuadOf(a)(x, y, z);
              && '=' !in q && ReaderOf(a)(q) == Some([x, y, z])
              && ReaderOf(a)(q[..3]) == Some([x, y]) && ReaderOf(a)(q[..2]) == Some([x])
    {
      GroupRoundTrip(x, y, z, a);
    }
  }

  // ---- The encoders ------------------------------------------------------------------------------

  /** Decoding an encoding gives the bytes back, for every byte string, alphabet and padding. */
  lemma RoundTrip(b: seq<Byte>, a: Alphabet, pad: bool)
    ensures Decode(Encode(b, a, pad), a, pad) == Some(b)
  {
    ReaderUndoesQuad(a);
    SpellRoundTrip(b, QuadOf(a), ReaderOf(a), pad);
  }

  /** Four characters for three bytes, rounded up; with padding, to a whole group. */
  lemma EncodedLength(b: seq<Byte>, a: Alphabet, pad: bool)
    ensures |Encode(b, a, pad)| == if pad then (|b| + 2) / 3 * 4 else (4 * |b| + 2) / 3
  {
    SpellLength(b, QuadOf(a), pad);
  }

  lemma QuadTranslated(x: Byte, y: Byte, z: Byte)
    ensures QuadOf(Std)(x, y, z) == Translated(QuadOf(Url)(x, y, z))
  {
  }

  /** The encoders agree: translate two characters, fill up with padding. */
  lemma EncodersAgree(b: seq<Byte>)
    ensures var url := Encode(b, Url, false);
            Encode(b, Std, true) == Translated(url) + Filler(|url|)
  {
    forall x: Byte, y: Byte, z: Byte
      ensures QuadOf(Std)(x, y, z) == Translated(QuadOf(Url)(x, y, z))
    {
      QuadTranslated(x, y, z);
    }
    SpellTranslated(b, QuadOf(Url), QuadOf(Std));
  }

  /** The bytes shifted into place and or-ed together. */
  method Join(x: Byte, y: Byte, z: Byte) returns (n: nat)
    ensures n == Word(x, y, z)
  {
    OrIsSum(x * 0x100 + y, z, 8);
    OrIsSum(x, y, 8);
    OrShifted(x, y);
    n := Or(Or(Shl(x, 16), Shl(y, 8)), z);
  }

  lemma OrShifted(x: Byte, y: Byte)
    ensures Or(Shl(x, 16), Shl(y, 8)) == Shl(x * 0x100 + y, 8)
  {
    OrIsSum(x, Shl(y, 8), 16);
  }

  /** The character of one field, cut out of the word by a shift and a mask. */
  method Emit(n: nat, shift: nat, a: Alphabet) returns (c: char)
    requires shift in {0, 6, 12, 18}
    ensures c == Char(n, 3 - shift / 6, a)
  {
    Powers();
    ghost var unit := if shift == 18 then 0x4_0000 else if shift == 12 then 0x1000 else if shift == 6 then 0x40 else 1;
    ShrIsQuotient(n, shift, unit);
    AndIsRemainder(Shr(n, shift), 6, 0x3F);
    c := Letter(And(Shr(n, shift), 0x3F), a);
  }

  /** The switch over how many bytes are left. */
  method EmitUrl(b: seq<Byte>) returns (chars: string)
    requires 1 <= |b| <= 3
    ensures chars == Encode(b, Url, false)
  {
    var x, y, z := b[0], if |b| > 1 then b[1] else 0, if |b| > 2 then b[2] else 0;
    SpellOne(b, QuadOf(Url), false, QuadOf(Url)(x, y, z));
    var n := Join(x, y, z);
    var c0 := Emit(n, 18, Url);
    var c1 := Emit(n, 12, Url);
    chars := [c0, c1];
    if |b| > 1 {
      var c2 := Emit(n, 6, Url);
      chars := chars + [c2];
    }
    if |b| > 2 {
      var c3 := Emit(n, 0, Url);
      chars := chars + [c3];
    }
  }

  /** `base64URLNoPad`: groups of three, the last one shorter. */
  method EncodeUrl(b: seq<Byte>) returns (enc: string)
    ensures enc == Encode(b, Url, false)
  {
    enc := "";
    var i := 0;
    while i < |b|
      invariant i >= 0 && enc + Encode(b[Min(i, |b|)..], Url, false) == Encode(b, Url, false)
    {
      var chars := EmitUrl(b[i..Min(i + 3, |b|)]);
      SpellGroup(b, i, QuadOf(Url), false);
      enc := enc + chars;
      i := i + 3;
    }
  }

  /** Or-s the bytes of a group into the word one by one, each shifted to its place, and counts them. */
  method ShiftIn(src: seq<Byte>) returns (n: nat, c: nat)
    requires 1 <= |src| <= 3
    ensures c == |src| && n == Word(src[0], if c > 1 then src[1] else 0, if c > 2 then src[2] else 0)
  {
    n, c := 0, 0;
    for j := 0 to |src|
      invariant c == j && (j == 0 ==> n == 0) && (j == 1 ==> n == Shl(src[0], 16))
      invariant j == 2 ==> n == Shl(src[0] as int * 0x100 + src[1], 8)
      invariant j == 3 ==> n == Word(src[0], src[1], src[2])
    {
      if j == 0 {
        OrZero(Shl(src[0], 16));
      } else if j == 1 {
        OrShifted(src[0], src[1]);
      } else {
        OrIsSum(src[0] as int * 0x100 + src[1], src[2], 8);
      }
      n := Or(n, Shl(src[j], 8 * (2 - j)));
      c := c + 1;
    }
  }

  /** Always four characters for a group. */
  method EmitStd(src: seq<Byte>) returns (chars: string)
    requires 1 <= |src| <= 3
    ensures chars == Encode(src, Std, true)
  {
    var n, c := ShiftIn(src);
    ghost var x, y, z := src[0], if c > 1 then src[1] else 0, if c > 2 then src[2] else 0;
    SpellOne(src, QuadOf(Std), true, QuadOf(Std)(x, y, z));
    var c0 := Emit(n, 18, Std);
    var c1 := Emit(n, 12, Std);
    var c2 := Emit(n, 6, Std);
    var c3 := Emit(n, 0, Std);
    chars := [c0, c1, if c > 1 then c2 else '=', if c > 2 then c3 else '='];
  }

  /** `base64Encode`: group by group, padded at the end. */
  method EncodeStd(src: seq<Byte>) returns (out: string)
    ensures out == Encode(src, Std, true)
  {
    out := "";
    var i := 0;
    while i < |src|
      invariant i >= 0 && out + Encode(src[Min(i, |src|)..], Std, true) == Encode(src, Std, true)
    {
      var chars := EmitStd(src[i..Min(i + 3, |src|)]);
      SpellGroup(src, i, QuadOf(Std), true);
      out := out + chars;
      i := i + 3;
    }
  }
}
