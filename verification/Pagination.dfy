/**
 Signed pagination cursors: unpadded base64url (section 5 of RFC 4648) around a JSON payload and
 its MAC. The MAC, the JSON text and the ISO timestamp text are parameters.
 */
module Pagination {
  import opened Common

  type byte = x: int | 0 <= x < 256

  type sextet = x: int | 0 <= x < 64

  // ----- base64url -----

  function Letter(v: sextet): char {
    if v < 26 then (65 + v) as char
    else if v < 52 then (97 + v - 26) as char
    else if v < 62 then (48 + v - 52) as char
    else if v == 62 then '-'
    else '_'
  }

  /** The value of a character; the plain alphabet is understood too, anything else is no digit. */
  function Digit(c: char): Option<sextet> {
    if 'A' <= c <= 'Z' then Some(c as int - 65)
    else if 'a' <= c <= 'z' then Some(c as int - 97 + 26)
    else if '0' <= c <= '9' then Some(c as int - 48 + 52)
    else if c == '-' || c == '+' then Some(62)
    else if c == '_' || c == '/' then Some(63)
    else None
  }

  /** The four letters that spell three bytes. */
  function Quad(a: byte, b: byte, c: byte): string {
    [Letter(a / 4), Letter(a % 4 * 16 + b / 16), Letter(b % 16 * 4 + c / 64), Letter(c % 64)]
  }

  /** Base64url with its padding. */
  function Padded(raw: seq<byte>): string {
    if raw == [] then ""
    else if |raw| == 1 then
      [Letter(raw[0] / 4), Letter(raw[0] % 4 * 16), '=', '=']
    else if |raw| == 2 then
      [Letter(raw[0] / 4), Letter(raw[0] % 4 * 16 + raw[1] / 16), Letter(raw[1] % 16 * 4), '=']
    else
      Quad(raw[0], raw[1], raw[2]) + Padded(raw[3..])
  }

  function Stripped(s: string): string {
    if s != "" && s[|s| - 1] == '=' then Stripped(s[..|s| - 1]) else s
  }

  function Encode(raw: seq<byte>): string {
    Stripped(Padded(raw))
  }

  /** Reads digits four at a time, skipping other characters and stopping at complete padding. */
  function Scan(s: string, pos: nat, left: nat, pads: nat): Option<seq<byte>>
    requires pos < 4 && (pos == 1 ==> left < 64) && (pos == 2 ==> left < 16) && (pos == 3 ==> left < 4)
  {
    if s == "" then if pos == 0 then Some([]) else None
    else if s[0] == '=' then
      if pos >= 2 && pos + pads + 1 >= 4 then Some([])
      else Scan(s[1..], pos, left, if pos >= 2 then pads + 1 else pads)
    else
      match Digit(s[0])
      case None => Scan(s[1..], pos, left, pads)
      case Some(v) =>
        if pos == 0 then Scan(s[1..], 1, v, 0)
        else if pos == 1 then Prepend(left * 4 + v / 16, Scan(s[1..], 2, v % 16, 0))
        else if pos == 2 then Prepend(left * 16 + v / 4, Scan(s[1..], 3, v % 4, 0))
        else Prepend(left * 64 + v, Scan(s[1..], 0, 0, 0))
  }

  function Prepend(b: byte, rest: Option<seq<byte>>): Option<seq<byte>> {
    match rest
    case None => None
    case Some(bytes) => Some([b] + bytes)
  }

  function Pads(n: nat): string {
    if n == 0 then "" else "=" + Pads(n - 1)
  }

  function Decode(s: string): Option<seq<byte>> {
    if exists c :: c in s && c as int >= 128 then None
    else Scan(s + Filler(|s|), 0, 0, 0)
  }

  // ----- tokens -----

  datatype Json = Text(text: string) | Number(number: int) | Object(fields: map<string, Json>) | Other

  /** The parts of a cursor that are not worked out here. */
  datatype Env = Env(
    mac: seq<byte> -> seq<byte>,
    dumps: map<string, Json> -> seq<byte>,
    loads: seq<byte> -> Option<Json>,
    isoformat: int -> string,
    fromisoformat: string -> Option<int>)

  /** JSON text and ISO timestamps read back as what was written. */
  ghost predicate Faithful(env: Env) {
    && (forall fields: map<string, Json> :: env.loads(env.dumps(fields)) == Some(Object(fields)))
    && (forall ts: int :: env.fromisoformat(env.isoformat(ts)) == Some(ts))
  }

  function EncodeCursor(env: Env, fields: map<string, Json>): string {
    var payload := env.dumps(fields);
    Encode(payload) + "." + Encode(env.mac(payload))
  }

  /** Index of the first dot, or the length of the text. */
  function FirstDot(s: string): (i: nat)
    ensures i <= |s|
  {
    if s == "" || s[0] == '.' then 0 else 1 + FirstDot(s[1..])
  }

  /** The object a token carries; `None` is the invalid-cursor error. */
  function DecodeCursor(env: Env, token: string): Option<map<string, Json>> {
    var dot := FirstDot(token);
    if dot == |token| then None
    else
      match (Decode(token[..dot]), Decode(token[dot + 1..]))
      case (Some(payload), Some(sig)) =>
        if sig != env.mac(payload) then None
        else (
          match env.loads(payload)
          case Some(Object(fields)) => Some(fields)
          case _ => None)
      case _ => None
  }

  function MakeCursor(env: Env, ts: int, id: int, tsKey: string, idKey: string): string {
    EncodeCursor(env, map[tsKey := Text(env.isoformat(ts))][idKey := Number(id)])
  }

  function ParseCursor(env: Env, token: string, tsKey: string, idKey: string): Option<(int, int)> {
    match DecodeCursor(env, token)
    case None => None
    case Some(fields) =>
      if tsKey in fields && fields[tsKey].Text? && idKey in fields && fields[idKey].Number? then
        match env.fromisoformat(fields[tsKey].text)
        case None => None
        case Some(ts) => Some((ts, fields[idKey].number))
      else None
  }

  // ----- base64url round trip -----

  lemma LetterDigit(v: sextet)
    ensures Digit(Letter(v)) == Some(v)
    ensures Letter(v) != '=' && Letter(v) != '.' && Letter(v) as int < 128
  {
  }

  /** Four digits read back as the three bytes they spell. */
  lemma FullQuad(a: byte, b: byte, c: byte, rest: string)
    ensures Scan(Quad(a, b, c) + rest, 0, 0, 0)
            == Prepend(a, Prepend(b, Prepend(c, Scan(rest, 0, 0, 0))))
  {
    var v0, v1, v2, v3 := a / 4, a % 4 * 16 + b / 16, b % 16 * 4 + c / 64, c % 64;
    LetterDigit(v0);
    LetterDigit(v1);
    LetterDigit(v2);
    LetterDigit(v3);
    var l0, l1, l2, l3 := Letter(v0), Letter(v1), Letter(v2), Letter(v3);
    assert ([l0, l1, l2, l3] + rest)[1..] == [l1, l2, l3] + rest;
    assert ([l1, l2, l3] + rest)[1..] == [l2, l3] + rest;
    assert ([l2, l3] + rest)[1..] == [l3] + rest;
    assert ([l3] + rest)[1..] == rest;
    assert v0 * 4 + v1 / 16 == a;
    assert v1 % 16 * 16 + v2 / 4 == b;
    assert v2 % 4 * 64 + v3 == c;
    assert Scan([l3] + rest, 3, v2 % 4, 0) == Prepend(c, Scan(rest, 0, 0, 0));
    assert Scan([l2, l3] + rest, 2, v1 % 16, 0) == Prepend(b, Scan([l3] + rest, 3, v2 % 4, 0));
    assert Scan([l1, l2, l3] + rest, 1, v0, 0) == Prepend(a, Scan([l2, l3] + rest, 2, v1 % 16, 0));
  }

  lemma TailOne(a: byte)
    ensures Scan(Padded([a]), 0, 0, 0) == Some([a])
  {
    var v0, v1 := a / 4, a % 4 * 16;
    LetterDigit(v0);
    LetterDigit(v1);
    var l0, l1 := Letter(v0), Letter(v1);
    assert Padded([a]) == [l0, l1, '=', '='];
    assert [l0, l1, '=', '='][1..] == [l1, '=', '='] && [l1, '=', '='][1..] == ['=', '='] && ['=', '='][1..] == ['='];
    assert v0 * 4 + v1 / 16 == a;
    var none: seq<byte> := [];
    assert Scan(['='], 2, v1 % 16, 1) == Some(none);
    assert Scan(['=', '='], 2, v1 % 16, 0) == Some(none);
    assert Scan([l1, '=', '='], 1, v0, 0) == Prepend(a, Some(none));
    assert [a] + none == [a];
  }

  lemma TailTwo(a: byte, b: byte)
    ensures Scan(Padded([a, b]), 0, 0, 0) == Some([a, b])
  {
    var v0, v1, v2 := a / 4, a % 4 * 16 + b / 16, b % 16 * 4;
    LetterDigit(v0);
    LetterDigit(v1);
    LetterDigit(v2);
    var l0, l1, l2 := Letter(v0), Letter(v1), Letter(v2);
    assert Padded([a, b]) == [l0, l1, l2, '='];
    assert [l0, l1, l2, '='][1..] == [l1, l2, '='] && [l1, l2, '='][1..] == [l2, '='] && [l2, '='][1..] == ['='];
    assert v0 * 4 + v1 / 16 == a && v1 % 16 * 16 + v2 / 4 == b;
    var none: seq<byte> := [];
    assert Scan(['='], 3, v2 % 4, 0) == Some(none);
    assert Scan([l2, '='], 2, v1 % 16, 0) == Prepend(b, Some(none));
    assert [b] + none == [b];
    assert Scan([l1, l2, '='], 1, v0, 0) == Prepend(a, Some([b]));
    assert [a] + [b] == [a, b];
  }

  lemma {:induction false} PaddedReadsBack(raw: seq<byte>)
    ensures Scan(Padded(raw), 0, 0, 0) == Some(raw)
  {
    if |raw| == 1 {
      assert raw == [raw[0]];
      TailOne(raw[0]);
    } else if |raw| == 2 {
      assert raw == [raw[0], raw[1]];
      TailTwo(raw[0], raw[1]);
    } else if |raw| > 2 {
      PaddedReadsBack(raw[3..]);
      FullQuad(raw[0], raw[1], raw[2], Padded(raw[3..]));
      assert raw == [raw[0], raw[1], raw[2]] + raw[3..];
      assert [raw[0]] + ([raw[1]] + ([raw[2]] + raw[3..])) == raw;
    }
  }

  /** A text over the alphabet, with no padding and no dot in it. */
  ghost predicate Plain(s: string) {
    forall i :: 0 <= i < |s| ==> s[i] != '=' && s[i] != '.' && s[i] as int < 128
  }

  lemma StrippedPlain(s: string, n: nat)
    requires Plain(s)
    ensures Stripped(s + Pads(n)) == s
    decreases n
  {
    if n == 0 {
      assert s + Pads(0) == s;
    } else {
      PadsEnd(n);
      assert (s + Pads(n))[..|s + Pads(n)| - 1] == s + Pads(n - 1);
      StrippedPlain(s, n - 1);
    }
  }

  lemma {:induction false} PadsEnd(n: nat)
    ensures |Pads(n)| == n
    ensures n > 0 ==> Pads(n)[n - 1] == '=' && Pads(n)[..n - 1] == Pads(n - 1)
  {
    if n > 0 {
      PadsEnd(n - 1);
      if n > 1 {
        assert Pads(n)[..n - 1] == "=" + Pads(n - 1)[..n - 2];
      }
    }
  }

  /** The padding a decoder puts behind `n` characters. */
  function Filler(n: nat): string {
    Pads((4 - n % 4) % 4)
  }

  lemma FillerShift(n: nat)
    ensures Filler(n + 4) == Filler(n)
  {
    assert (n + 4) % 4 == n % 4;
  }

  lemma TailFiller()
    ensures Filler(0) == "" && Filler(2) == "==" && Filler(3) == "="
  {
    assert Pads(1) == "=" + Pads(0) && Pads(2) == "=" + Pads(1);
  }

  lemma QuadPlain(a: byte, b: byte, c: byte)
    ensures Plain(Quad(a, b, c))
  {
    hide Letter, Digit;
    LetterDigit(a / 4);
    LetterDigit(a % 4 * 16 + b / 16);
    LetterDigit(b % 16 * 4 + c / 64);
    LetterDigit(c % 64);
  }

  /** A short last group is the front of a full one. */
  lemma TailShape(raw: seq<byte>) returns (body: string)
    requires |raw| == 1 || |raw| == 2
    ensures Plain(body) && Padded(raw) == body + Filler(|body|)
  {
    hide Letter, Filler;
    TailFiller();
    if |raw| == 1 {
      QuadPlain(raw[0], 0, 0);
      body := Quad(raw[0], 0, 0)[..2];
    } else {
      QuadPlain(raw[0], raw[1], 0);
      body := Quad(raw[0], raw[1], 0)[..3];
    }
  }

  /** Padded text is a plain body and just enough padding to fill its last group. */
  lemma {:induction false} PaddedShape(raw: seq<byte>) returns (body: string)
    ensures Plain(body) && Padded(raw) == body + Filler(|body|)
  {
    hide Letter, Filler;
    if raw == [] {
      TailFiller();
      body := "";
    } else if |raw| <= 2 {
      body := TailShape(raw);
    } else {
      var front := Quad(raw[0], raw[1], raw[2]);
      QuadPlain(raw[0], raw[1], raw[2]);
      var rest := PaddedShape(raw[3..]);
      FillerShift(|rest|);
      body := front + rest;
      assert front + (rest + Filler(|rest|)) == body + Filler(|rest|);
    }
  }

  /** Dropping the padding and putting it back is lossless for every byte string. */
  lemma Base64RoundTrip(raw: seq<byte>)
    ensures Decode(Encode(raw)) == Some(raw) && Plain(Encode(raw))
  {
    var body := PaddedShape(raw);
    StrippedPlain(body, (4 - |body| % 4) % 4);
    PaddedReadsBack(raw);
  }

  // ----- what the letters spell -----

  /** Text read as a number in base 64, leading digits first, continuing `acc`. */
  function Base64Value(s: string, acc: nat): nat {
    if s == "" then acc
    else Base64Value(s[1..], match Digit(s[0]) case None => acc case Some(v) => acc * 64 + v)
  }

  /** Bytes read as a number in base 256, leading byte first, continuing `acc`. */
  function ByteValue(raw: seq<byte>, acc: nat): nat {
    if raw == [] then acc else ByteValue(raw[1..], acc * 256 + raw[0])
  }

  /** Zero bits that fill the last digit, as a factor. */
  function Fill(n: nat): nat {
    if n % 3 == 0 then 1 else if n % 3 == 1 then 16 else 4
  }

  lemma StrippedFiller(s: string, n: nat)
    requires Plain(s)
    ensures Stripped(s + Filler(n)) == s
  {
    StrippedPlain(s, (4 - n % 4) % 4);
  }

  lemma EncodeUnfolds(raw: seq<byte>)
    requires |raw| > 2
    ensures Encode(raw) == Quad(raw[0], raw[1], raw[2]) + Encode(raw[3..])
  {
    hide Letter, Digit, Filler, Stripped;
    var front := Quad(raw[0], raw[1], raw[2]);
    var rest := PaddedShape(raw[3..]);
    QuadPlain(raw[0], raw[1], raw[2]);
    hide Quad;
    StrippedFiller(rest, |rest|);
    StrippedFiller(front + rest, |rest|);
    assert front + (rest + Filler(|rest|)) == (front + rest) + Filler(|rest|);
  }

  lemma EncodeTail(raw: seq<byte>)
    requires |raw| == 1 || |raw| == 2
    ensures Encode(raw) == if |raw| == 1 then Quad(raw[0], 0, 0)[..2] else Quad(raw[0], raw[1], 0)[..3]
  {
    hide Letter, Filler, Stripped;
    TailFiller();
    var body := if |raw| == 1 then Quad(raw[0], 0, 0)[..2] else Quad(raw[0], raw[1], 0)[..3];
    QuadPlain(raw[0], if |raw| == 1 then 0 else raw[1], 0);
    assert Padded(raw) == body + Pads(4 - |body|) by {
      assert Pads(1) == "=" + Pads(0) && Pads(2) == "=" + Pads(1);
    }
    StrippedPlain(body, 4 - |body|);
  }

  lemma OneDigit(v: sextet, rest: string, acc: nat)
    ensures Base64Value([Letter(v)] + rest, acc) == Base64Value(rest, acc * 64 + v)
    ensures Base64Value([Letter(v)], acc) == acc * 64 + v
  {
    LetterDigit(v);
    hide Letter, Digit;
    assert ([Letter(v)] + rest)[1..] == rest && [Letter(v)][1..] == "";
  }

  lemma TwoDigits(v: sextet, w: sextet, rest: string, acc: nat)
    ensures Base64Value([Letter(v), Letter(w)] + rest, acc) == Base64Value(rest, (acc * 64 + v) * 64 + w)
    ensures Base64Value([Letter(v), Letter(w)], acc) == (acc * 64 + v) * 64 + w
  {
    hide Letter, Digit, Base64Value;
    var next := acc * 64 + v;
    OneDigit(w, rest, next);
    OneDigit(v, [Letter(w)] + rest, acc);
    assert [Letter(v), Letter(w)] + rest == [Letter(v)] + ([Letter(w)] + rest);
    OneDigit(v, [Letter(w)], acc);
    assert [Letter(v), Letter(w)] == [Letter(v)] + [Letter(w)];
  }

  lemma ThreeDigits(v: sextet, w: sextet, x: sextet, acc: nat)
    ensures Base64Value([Letter(v), Letter(w), Letter(x)], acc) == ((acc * 64 + v) * 64 + w) * 64 + x
  {
    hide Letter, Digit, Base64Value;
    TwoDigits(v, w, [Letter(x)], acc);
    OneDigit(x, "", (acc * 64 + v) * 64 + w);
    assert [Letter(v), Letter(w), Letter(x)] == [Letter(v), Letter(w)] + [Letter(x)];
  }

  lemma FourDigits(v: sextet, w: sextet, x: sextet, y: sextet, rest: string, acc: nat)
    ensures Base64Value([Letter(v), Letter(w), Letter(x), Letter(y)] + rest, acc)
            == Base64Value(rest, (((acc * 64 + v) * 64 + w) * 64 + x) * 64 + y)
  {
    hide Letter, Digit, Base64Value;
    TwoDigits(v, w, [Letter(x), Letter(y)] + rest, acc);
    TwoDigits(x, y, rest, (acc * 64 + v) * 64 + w);
    assert [Letter(v), Letter(w), Letter(x), Letter(y)] + rest
           == [Letter(v), Letter(w)] + ([Letter(x), Letter(y)] + rest);
  }

  lemma QuadValue(a: byte, b: byte, c: byte, rest: string, acc: nat)
    ensures Base64Value(Quad(a, b, c) + rest, acc) == Base64Value(rest, ((acc * 256 + a) * 256 + b) * 256 + c)
  {
    hide Letter, Base64Value;
    FourDigits(a / 4, a % 4 * 16 + b / 16, b % 16 * 4 + c / 64, c % 64, rest, acc);
  }

  lemma ShortQuadValue(a: byte, b: byte, acc: nat)
    ensures Base64Value(Quad(a, b, 0)[..3], acc) == ((acc * 256 + a) * 256 + b) * 4
    ensures b == 0 ==> Base64Value(Quad(a, b, 0)[..2], acc) == (acc * 256 + a) * 16
  {
    hide Letter, Base64Value;
    var v, w, x := a / 4, a % 4 * 16 + b / 16, b % 16 * 4;
    ThreeDigits(v, w, x, acc);
    TwoDigits(v, w, "", acc);
    assert Quad(a, b, 0)[..3] == [Letter(v), Letter(w), Letter(x)];
    assert Quad(a, b, 0)[..2] == [Letter(v), Letter(w)];
  }

  lemma LengthGrows(n: nat)
    ensures CeilDiv(8 * (n + 3), 6) == CeilDiv(8 * n, 6) + 4
  {
  }

  lemma ThreeBytes(raw: seq<byte>, acc: nat)
    requires |raw| > 2
    ensures ByteValue(raw, acc) == ByteValue(raw[3..], ((acc * 256 + raw[0]) * 256 + raw[1]) * 256 + raw[2])
  {
    var one := acc * 256 + raw[0];
    var two := one * 256 + raw[1];
    assert raw[1..][0] == raw[1] && raw[1..][1..] == raw[2..];
    assert raw[2..][0] == raw[2] && raw[2..][1..] == raw[3..];
    assert ByteValue(raw[1..], one) == ByteValue(raw[2..], two);
    assert ByteValue(raw[2..], two) == ByteValue(raw[3..], two * 256 + raw[2]);
  }

  /** The text has as many digits as the bits need, and spells the bytes' number with the last digit filled by zeros. */
  lemma {:induction false} EncodeSpellsTheBits(raw: seq<byte>, acc: nat)
    ensures |Encode(raw)| == CeilDiv(8 * |raw|, 6)
    ensures Base64Value(Encode(raw), acc) == ByteValue(raw, acc) * Fill(|raw|)
  {
    if |raw| == 1 {
      OneByteSpells(raw, acc);
    } else if |raw| == 2 {
      TwoBytesSpell(raw, acc);
    } else if |raw| > 2 {
      hide Letter, Digit, Encode, Quad, CeilDiv, Fill, Base64Value, ByteValue;
      EncodeUnfolds(raw);
      QuadValue(raw[0], raw[1], raw[2], Encode(raw[3..]), acc);
      ThreeBytes(raw, acc);
      EncodeSpellsTheBits(raw[3..], ((acc * 256 + raw[0]) * 256 + raw[1]) * 256 + raw[2]);
      LengthGrows(|raw| - 3);
      QuadLength(raw[0], raw[1], raw[2]);
      FillShift(|raw| - 3);
    }
  }

  lemma QuadLength(a: byte, b: byte, c: byte)
    ensures |Quad(a, b, c)| == 4
  {
  }

  lemma FillShift(n: nat)
    ensures Fill(n + 3) == Fill(n)
  {
  }

  lemma OneByteSpells(raw: seq<byte>, acc: nat)
    requires |raw| == 1
    ensures |Encode(raw)| == CeilDiv(8 * |raw|, 6)
    ensures Base64Value(Encode(raw), acc) == ByteValue(raw, acc) * Fill(|raw|)
  {
    hide Letter, Digit, Encode, Base64Value;
    EncodeTail(raw);
    ShortQuadValue(raw[0], 0, acc);
    assert raw[1..] == [];
    assert ByteValue(raw, acc) == acc * 256 + raw[0];
  }

  lemma TwoBytesSpell(raw: seq<byte>, acc: nat)
    requires |raw| == 2
    ensures |Encode(raw)| == CeilDiv(8 * |raw|, 6)
    ensures Base64Value(Encode(raw), acc) == ByteValue(raw, acc) * Fill(|raw|)
  {
    hide Letter, Digit, Encode, Base64Value;
    EncodeTail(raw);
    ShortQuadValue(raw[0], raw[1], acc);
    assert raw[1..][0] == raw[1] && raw[1..][1..] == [];
    assert ByteValue(raw[1..], acc * 256 + raw[0]) == (acc * 256 + raw[0]) * 256 + raw[1];
    assert ByteValue(raw, acc) == (acc * 256 + raw[0]) * 256 + raw[1];
  }

  /** The alphabet: three stretches of consecutive characters from these on, then a hyphen and an underscore. */
  lemma AlphabetInOrder(v: sextet)
    ensures Letter(0) == 'A' && Letter(26) == 'a' && Letter(52) == '0' && Letter(62) == '-' && Letter(63) == '_'
    ensures v < 62 && v != 25 && v != 51 && v != 61 ==> Letter(v + 1) as int == Letter(v) as int + 1
    ensures forall w: sextet :: Letter(w) == Letter(v) ==> w == v
  {
    LetterDigit(v);
    forall w: sextet | Letter(w) == Letter(v) ensures w == v {
      LetterDigit(w);
    }
  }

  // ----- cursor round trip -----

  lemma {:induction false} FirstDotAfterPlain(s: string, rest: string)
    requires Plain(s)
    ensures FirstDot(s + "." + rest) == |s|
  {
    var whole := s + "." + rest;
    if s != "" {
      assert whole[0] == s[0];
      assert whole[1..] == s[1..] + "." + rest;
      FirstDotAfterPlain(s[1..], rest);
    }
  }

  lemma CursorRoundTrip(env: Env, fields: map<string, Json>)
    requires Faithful(env)
    ensures DecodeCursor(env, EncodeCursor(env, fields)) == Some(fields)
  {
    var payload := env.dumps(fields);
    var sig := env.mac(payload);
    Base64RoundTrip(payload);
    Base64RoundTrip(sig);
    FirstDotAfterPlain(Encode(payload), Encode(sig));
    var token := EncodeCursor(env, fields);
    assert token[..|Encode(payload)|] == Encode(payload);
    assert token[|Encode(payload)| + 1..] == Encode(sig);
    assert env.loads(payload) == Some(Object(fields));
  }

  /** A timestamp and id come back from their cursor exactly when the two are stored under different keys. */
  lemma TimestampIdRoundTrip(env: Env, ts: int, id: int, tsKey: string, idKey: string)
    requires Faithful(env)
    ensures ParseCursor(env, MakeCursor(env, ts, id, tsKey, idKey), tsKey, idKey) == Some((ts, id))
            <==> tsKey != idKey
  {
    CursorRoundTrip(env, map[tsKey := Text(env.isoformat(ts))][idKey := Number(id)]);
    assert env.fromisoformat(env.isoformat(ts)) == Some(ts);
  }

  /** A token is accepted exactly when its part after the first dot spells the MAC of a JSON object before it. */
  lemma AcceptedExactlyWhenSigned(env: Env, token: string, fields: map<string, Json>)
    ensures DecodeCursor(env, token) == Some(fields) <==>
            exists dot: nat, payload: seq<byte> ::
              && dot < |token| && token[dot] == '.' && '.' !in token[..dot]
              && Decode(token[..dot]) == Some(payload) && Decode(token[dot + 1..]) == Some(env.mac(payload))
              && env.loads(payload) == Some(Object(fields))
  {
    hide Scan;
    FirstDotIsFirst(token);
    forall dot: nat | dot < |token| && token[dot] == '.' && '.' !in token[..dot] ensures dot == FirstDot(token) {
      OnlyOneFirstDot(token, dot);
    }
  }

  lemma {:induction false} OnlyOneFirstDot(s: string, dot: nat)
    requires dot < |s| && s[dot] == '.' && '.' !in s[..dot]
    ensures FirstDot(s) == dot
  {
    if dot > 0 {
      assert s[0] == s[..dot][0];
      assert s[1..][..dot - 1] == s[..dot][1..];
      OnlyOneFirstDot(s[1..], dot - 1);
    }
  }

  lemma {:induction false} FirstDotIsFirst(s: string)
    ensures forall i :: 0 <= i < FirstDot(s) ==> s[i] != '.'
    ensures FirstDot(s) < |s| ==> s[FirstDot(s)] == '.'
  {
    if s != "" && s[0] != '.' {
      FirstDotIsFirst(s[1..]);
      forall i | 0 <= i < FirstDot(s) ensures s[i] != '.' {
        assert i > 0 ==> s[i] == s[1..][i - 1];
      }
    }
  }
}
