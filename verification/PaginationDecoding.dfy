/**
 What a cursor part decodes to, for every text a client may send: the digits count, other
 characters are skipped, and reading ends where padding completes the last group.
 */
module PaginationDecoding {
  import opened Common
  import opened Pagination

  function Front(s: string): string
    requires s != ""
  {
    s[..|s| - 1]
  }

  /** How many characters of a text are digits. */
  function Digits(s: string): nat {
    if s == "" then 0 else Digits(Front(s)) + if Digit(s[|s| - 1]).Some? then 1 else 0
  }

  /** How many padding characters follow the last digit of a text. */
  function PadRun(s: string): nat {
    if s == "" || Digit(s[|s| - 1]).Some? then 0
    else PadRun(Front(s)) + if s[|s| - 1] == '=' then 1 else 0
  }

  /** The padding up to character `i` fills a group that has begun with two digits at least. */
  ghost predicate Completes(t: string, i: nat) {
    i < |t| && t[i] == '=' && Digits(t[..i]) % 4 >= 2 && Digits(t[..i]) % 4 + PadRun(t[..i + 1]) >= 4
  }

  /** The text is read up to character `n`: to the first that completes a group, or to a whole last group. */
  ghost predicate ReadUpTo(t: string, n: nat) {
    && n <= |t|
    && (forall i :: 0 <= i < n ==> !Completes(t, i))
    && (if n < |t| then Completes(t, n) else Digits(t) % 4 == 0)
  }

  /** A number written with the spare bits a group of `pos` digits has after its last whole byte. */
  function Shifted(x: nat, pos: nat): nat {
    if pos == 0 then x else if pos == 1 then x * 64 else if pos == 2 then x * 16 else x * 4
  }

  /** A number without the spare bits of a last group of two or three digits. */
  function Trimmed(x: nat, pos: nat): nat {
    if pos == 2 then x / 16 else if pos == 3 then x / 4 else x
  }

  /** The bytes are those the first `n` characters spell, a last digit's spare bits dropped. */
  ghost predicate Spells(t: string, n: nat, raw: seq<byte>)
    requires n <= |t|
  {
    var digits := Digits(t[..n]);
    && |raw| == digits * 3 / 4
    && ByteValue(raw, 0) == Trimmed(Base64Value(t[..n], 0), digits % 4)
  }

  lemma {:induction false} ValueGrows(s: string, c: char, acc: nat)
    ensures Base64Value(s + [c], acc)
            == match Digit(c)
               case None => Base64Value(s, acc)
               case Some(v) => Base64Value(s, acc) * 64 + v
  {
    hide Digit;
    if s == "" {
      assert (s + [c])[1..] == "";
    } else {
      assert (s + [c])[1..] == s[1..] + [c];
      ValueGrows(s[1..], c, match Digit(s[0]) case None => acc case Some(v) => acc * 64 + v);
    }
  }

  lemma {:induction false} BytesGrow(raw: seq<byte>, b: byte, acc: nat)
    ensures ByteValue(raw + [b], acc) == ByteValue(raw, acc) * 256 + b
  {
    if raw == [] {
      assert (raw + [b])[1..] == [];
    } else {
      assert (raw + [b])[1..] == raw[1..] + [b];
      BytesGrow(raw[1..], b, acc * 256 + raw[0]);
    }
  }

  function PrependAll(front: seq<byte>, rest: Option<seq<byte>>): Option<seq<byte>> {
    match rest
    case None => None
    case Some(bytes) => Some(front + bytes)
  }

  /** Where a scan stands after `i` characters: the bytes it has put out and the spare bits of the last digit. */
  ghost predicate StandsAt(t: string, i: nat, out: seq<byte>, left: nat, pads: nat)
    requires i <= |t|
  {
    var pos := Digits(t[..i]) % 4;
    && (pos == 1 ==> left < 64) && (pos == 2 ==> left < 16) && (pos == 3 ==> left < 4) && (pos == 0 ==> left == 0)
    && (pos >= 2 ==> pads == PadRun(t[..i]))
    && Scan(t, 0, 0, 0) == PrependAll(out, Scan(t[i..], pos, left, pads))
    && |out| == Digits(t[..i]) * 3 / 4
    && Base64Value(t[..i], 0) == Shifted(ByteValue(out, 0), pos) + left
  }

  lemma OneMoreCharacter(t: string, i: nat)
    requires i < |t|
    ensures Digits(t[..i + 1]) == Digits(t[..i]) + if Digit(t[i]).Some? then 1 else 0
    ensures PadRun(t[..i + 1]) == if Digit(t[i]).Some? then 0 else PadRun(t[..i]) + if t[i] == '=' then 1 else 0
  {
    assert Front(t[..i + 1]) == t[..i];
  }

  lemma Chained(front: seq<byte>, b: byte, rest: Option<seq<byte>>)
    ensures PrependAll(front, Prepend(b, rest)) == PrependAll(front + [b], rest)
  {
    if rest.Some? {
      assert front + ([b] + rest.value) == front + [b] + rest.value;
    }
  }

  /** The byte a digit completes, when `pos` digits of its group went before, and the spare bits it leaves. */
  ghost predicate Splits(pos: nat, left: nat, v: sextet, b: byte, spare: nat) {
    if pos == 1 then b == left * 4 + v / 16 && spare == v % 16
    else if pos == 2 then b == left * 16 + v / 4 && spare == v % 4
    else b == left * 64 + v && spare == 0
  }

  lemma ScanDigit(u: string, pos: nat, left: nat, pads: nat, v: sextet) returns (b: byte, spare: nat)
    requires u != "" && u[0] != '=' && Digit(u[0]) == Some(v)
    requires (pos == 1 && left < 64) || (pos == 2 && left < 16) || (pos == 3 && left < 4)
    ensures Splits(pos, left, v, b, spare) && (pos == 1 ==> spare < 16) && (pos == 2 ==> spare < 4)
    ensures pos == 3 ==> spare == 0
    ensures Scan(u, pos, left, pads) == Prepend(b, Scan(u[1..], (pos + 1) % 4, spare, 0))
  {
    hide Digit;
    if pos == 1 {
      b, spare := left * 4 + v / 16, v % 16;
    } else if pos == 2 {
      b, spare := left * 16 + v / 4, v % 4;
    } else {
      b, spare := left * 64 + v, 0;
    }
  }

  lemma SplitValue(pos: nat, left: nat, v: sextet, b: byte, spare: nat, bytes: nat)
    requires 1 <= pos <= 3 && Splits(pos, left, v, b, spare)
    ensures (Shifted(bytes, pos) + left) * 64 + v == Shifted(bytes * 256 + b, (pos + 1) % 4) + spare
  {
    if pos == 1 {
      var q := v / 16;
      assert v == 16 * q + spare && b == left * 4 + q;
    } else if pos == 2 {
      var q := v / 4;
      assert v == 4 * q + spare && b == left * 16 + q;
    }
  }

  lemma QuarterIs(n: nat, quotient: nat, rest: nat)
    requires n == 4 * quotient + rest && rest < 4
    ensures n / 4 == quotient && n % 4 == rest
  {
  }

  lemma OneMoreDigit(digits: nat)
    ensures (digits + 1) % 4 == (digits % 4 + 1) % 4
    ensures (digits + 1) * 3 / 4 == digits * 3 / 4 + if digits % 4 == 0 then 0 else 1
  {
    var groups, open := digits / 4, digits % 4;
    var bytes := 3 * groups + if open == 0 then 0 else open - 1;
    QuarterIs(digits * 3, bytes, digits * 3 - 4 * bytes);
    if open == 3 {
      QuarterIs(digits + 1, groups + 1, 0);
      QuarterIs((digits + 1) * 3, bytes + 1, 0);
    } else {
      QuarterIs(digits + 1, groups, open + 1);
      QuarterIs((digits + 1) * 3, 3 * groups + open, 3 - open);
    }
  }

  /** The first digit of a group: nothing is put out. */
  lemma FirstDigitStep(t: string, i: nat, out: seq<byte>, left: nat, pads: nat, v: sextet)
    requires i < |t| && StandsAt(t, i, out, left, pads) && Digit(t[i]) == Some(v) && Digits(t[..i]) % 4 == 0
    ensures StandsAt(t, i + 1, out, v, 0)
  {
    OneMoreCharacter(t, i);
    OneMoreDigit(Digits(t[..i]));
    ValueGrows(t[..i], t[i], 0);
    assert t[..i] + [t[i]] == t[..i + 1] && t[i..][1..] == t[i + 1..] && t[i..][0] == t[i];
    assert t[i] != '=';
    hide Digit, Digits, PadRun, Base64Value, ByteValue;
    assert Scan(t[i..], 0, left, pads) == Scan(t[i + 1..], 1, v, 0);
  }

  lemma LaterDigitValue(t: string, i: nat, out: seq<byte>, left: nat, v: sextet, b: byte, spare: nat, pos: nat)
    requires i < |t| && Digit(t[i]) == Some(v) && 1 <= pos <= 3 && Splits(pos, left, v, b, spare)
    requires Base64Value(t[..i], 0) == Shifted(ByteValue(out, 0), pos) + left
    ensures Base64Value(t[..i + 1], 0) == Shifted(ByteValue(out + [b], 0), (pos + 1) % 4) + spare
  {
    hide Digit, Base64Value, ByteValue, Splits, Shifted;
    ValueGrows(t[..i], t[i], 0);
    assert t[..i] + [t[i]] == t[..i + 1];
    SplitValue(pos, left, v, b, spare, ByteValue(out, 0));
    BytesGrow(out, b, 0);
  }

  /** Any other digit of a group: one byte is put out. */
  lemma LaterDigitStep(t: string, i: nat, out: seq<byte>, left: nat, pads: nat, v: sextet)
    returns (more: seq<byte>, spare: nat)
    requires i < |t| && StandsAt(t, i, out, left, pads) && Digit(t[i]) == Some(v) && Digits(t[..i]) % 4 > 0
    ensures StandsAt(t, i + 1, more, spare, 0)
  {
    var pos := Digits(t[..i]) % 4;
    OneMoreCharacter(t, i);
    OneMoreDigit(Digits(t[..i]));
    assert t[i..][1..] == t[i + 1..] && t[i..][0] == t[i];
    assert t[i] != '=';
    hide Digit, Digits, PadRun, Base64Value, ByteValue, Scan, Splits, Shifted;
    var b;
    b, spare := ScanDigit(t[i..], pos, left, pads, v);
    LaterDigitValue(t, i, out, left, v, b, spare, pos);
    more := out + [b];
    Chained(out, b, Scan(t[i + 1..], (pos + 1) % 4, spare, 0));
  }

  /** A character that is no digit leaves everything but the padding count as it was. */
  lemma SkipStep(t: string, i: nat, out: seq<byte>, left: nat, pads: nat) returns (next: nat)
    requires i < |t| && StandsAt(t, i, out, left, pads) && Digit(t[i]).None? && !Completes(t, i)
    ensures StandsAt(t, i + 1, out, left, next)
  {
    OneMoreCharacter(t, i);
    ValueGrows(t[..i], t[i], 0);
    assert t[..i] + [t[i]] == t[..i + 1] && t[i..][1..] == t[i + 1..] && t[i..][0] == t[i];
    next := if t[i] == '=' && Digits(t[..i]) % 4 >= 2 then pads + 1 else pads;
    hide Digit, Digits, PadRun, Base64Value, ByteValue;
  }

  lemma {:induction false} ScanStands(t: string, i: nat) returns (out: seq<byte>, left: nat, pads: nat)
    requires i <= |t| && forall j :: 0 <= j < i ==> !Completes(t, j)
    ensures StandsAt(t, i, out, left, pads)
  {
    if i == 0 {
      out, left, pads := [], 0, 0;
      assert t[0..] == t && t[..0] == "";
      var whole := Scan(t, 0, 0, 0);
      assert whole.Some? ==> out + whole.value == whole.value;
    } else {
      hide StandsAt, Completes;
      out, left, pads := ScanStands(t, i - 1);
      match Digit(t[i - 1])
      case None => pads := SkipStep(t, i - 1, out, left, pads);
      case Some(v) =>
        if Digits(t[..i - 1]) % 4 == 0 {
          FirstDigitStep(t, i - 1, out, left, pads, v);
          left := v;
        } else {
          out, left := LaterDigitStep(t, i - 1, out, left, pads, v);
        }
        pads := 0;
    }
  }

  /** A scan gives what is spelled by the characters it reads up to. */
  lemma ScanReads(t: string, n: nat)
    requires ReadUpTo(t, n)
    ensures Scan(t, 0, 0, 0).Some? && Spells(t, n, Scan(t, 0, 0, 0).value)
  {
    var out, left, pads := ScanStands(t, n);
    if n < |t| {
      OneMoreCharacter(t, n);
      assert t[n..][0] == '=';
    } else {
      assert t[..n] == t;
    }
    hide Digits, PadRun, Base64Value, ByteValue;
    assert out + [] == out;
  }

  lemma {:induction false} FirstCompletion(t: string, n: nat) returns (first: nat)
    requires n <= |t|
    ensures first <= n && forall i :: 0 <= i < first ==> !Completes(t, i)
    ensures first < n ==> Completes(t, first)
  {
    hide Completes;
    if n == 0 {
      first := 0;
    } else {
      first := FirstCompletion(t, n - 1);
      if first == n - 1 && !Completes(t, n - 1) {
        first := n;
      }
    }
  }

  /** A scan fails exactly when no padding completes a group and the last group is not whole. */
  lemma ScanFails(t: string)
    ensures Scan(t, 0, 0, 0).None? <==> forall n :: 0 <= n <= |t| ==> !ReadUpTo(t, n)
  {
    var n := FirstCompletion(t, |t|);
    if ReadUpTo(t, n) {
      ScanReads(t, n);
    } else {
      var out, left, pads := ScanStands(t, n);
      assert t[..n] == t;
      hide Digits, PadRun, Base64Value, ByteValue;
      forall m | 0 <= m <= |t| ensures !ReadUpTo(t, m) {
      }
    }
  }

  /** The text as the decoder sees it. */
  function Filled(s: string): string {
    s + Filler(|s|)
  }

  /** Every text: it is decoded exactly when it is ASCII and ends in a group, and gives the bytes its digits spell. */
  lemma DecodesExactly(s: string)
    ensures Decode(s).Some? <==>
            (forall c :: c in s ==> c as int < 128) && exists n :: 0 <= n <= |Filled(s)| && ReadUpTo(Filled(s), n)
    ensures Decode(s).Some? ==>
            forall n :: 0 <= n <= |Filled(s)| && ReadUpTo(Filled(s), n) ==> Spells(Filled(s), n, Decode(s).value)
  {
    hide Scan, ReadUpTo, Spells, Filler;
    ScanFails(Filled(s));
    forall n | 0 <= n <= |Filled(s)| && ReadUpTo(Filled(s), n) && Decode(s).Some?
      ensures Spells(Filled(s), n, Decode(s).value)
    {
      ScanReads(Filled(s), n);
    }
  }

  /** The digits are the 64 letters, each worth its place, and the plain alphabet's two spellings of the last ones. */
  lemma DigitMeans(c: char, v: sextet)
    ensures Digit(c) == Some(v) <==> Letter(v) == c || (v == 62 && c == '+') || (v == 63 && c == '/')
  {
  }

  lemma {:induction false} NoPadRun(s: string)
    requires '=' !in s
    ensures PadRun(s) == 0
  {
    if s != "" {
      NoPadRun(Front(s));
    }
  }

  lemma {:induction false} PadsAtEnd(s: string, n: nat)
    requires '=' !in s
    ensures Digits(s + Pads(n)) == Digits(s) && PadRun(s + Pads(n)) == n
    decreases n
  {
    if n == 0 {
      NoPadRun(s);
      assert s + Pads(0) == s;
    } else {
      PadsEnd(n);
      assert Front(s + Pads(n)) == s + Pads(n - 1);
      PadsAtEnd(s, n - 1);
    }
  }

  lemma {:induction false} PadsFront(n: nat, k: nat)
    requires k <= n
    ensures |Pads(n)| == n && Pads(n)[..k] == Pads(k)
    ensures forall i :: 0 <= i < n ==> Pads(n)[i] == '='
  {
    if k > 0 {
      PadsFront(n - 1, k - 1);
      assert Pads(n)[..k] == "=" + Pads(n - 1)[..k - 1];
    } else if n > 0 {
      PadsFront(n - 1, 0);
    }
  }

  lemma FillerCut(s: string, n: nat, k: nat)
    requires k <= n
    ensures |Pads(n)| == n && (s + Pads(n))[..|s| + k] == s + Pads(k)
  {
    PadsFront(n, k);
    assert (s + Pads(n))[..|s| + k] == s + Pads(n)[..k];
  }

  /** Which characters of a text and its filler complete a group, when the text has no padding of its own. */
  lemma UnpaddedCompletes(s: string, n: nat, i: nat)
    requires '=' !in s && i < |s| + n
    ensures Completes(s + Pads(n), i) <==>
            i >= |s| && Digits(s) % 4 >= 2 && Digits(s) % 4 + i + 1 - |s| >= 4
  {
    hide Digits, PadRun, Pads;
    PadsFront(n, n);
    if i < |s| {
      assert (s + Pads(n))[i] == s[i];
    } else {
      var k := i - |s|;
      FillerCut(s, n, k);
      FillerCut(s, n, k + 1);
      PadsAtEnd(s, k);
      PadsAtEnd(s, k + 1);
      assert (s + Pads(n))[i] == Pads(n)[k];
    }
  }

  /** A text and its filler can be read to an end exactly when filling the last group completes it. */
  lemma UnpaddedReads(s: string, n: nat)
    requires '=' !in s
    ensures (exists m :: 0 <= m <= |s + Pads(n)| && ReadUpTo(s + Pads(n), m)) <==>
            Digits(s) % 4 == 0 || (Digits(s) % 4 >= 2 && Digits(s) % 4 + n >= 4)
  {
    hide Completes, Digits, Pads;
    var t := s + Pads(n);
    PadsFront(n, n);
    PadsAtEnd(s, n);
    forall i | 0 <= i < |t|
      ensures Completes(t, i) <==> i >= |s| && Digits(s) % 4 >= 2 && Digits(s) % 4 + i + 1 - |s| >= 4
    {
      UnpaddedCompletes(s, n, i);
    }
    var first := FirstCompletion(t, |t|);
    if Digits(s) % 4 >= 2 && Digits(s) % 4 + n >= 4 {
      assert Completes(t, |t| - 1);
      assert ReadUpTo(t, first);
    } else {
      assert forall i :: 0 <= i < |t| ==> !Completes(t, i);
      assert ReadUpTo(t, |t|) <==> Digits(s) % 4 == 0;
    }
  }

  /**
   Text without padding is decoded exactly when its digits fill their last group, or its length
   leaves as many places to fill as the group has.
   */
  lemma UnpaddedDecodesExactlyWhen(s: string)
    requires '=' !in s && forall c :: c in s ==> c as int < 128
    ensures var open, places := Digits(s) % 4, (4 - |s| % 4) % 4;
            Decode(s).Some? <==> open == 0 || (open >= 2 && open + places >= 4)
  {
    hide Decode, Digits, Pads, ReadUpTo, Spells;
    assert Filled(s) == s + Pads((4 - |s| % 4) % 4);
    DecodesExactly(s);
    UnpaddedReads(s, (4 - |s| % 4) % 4);
  }
}
