/** The full text of a formatted number, and reading hexadecimal text back. */
module Ulong {
  import Edits
  import opened Powers
  import opened Numerals

  // Field width, precision (negative if absent), and the '-' and '0' flags.
  datatype Layout = Layout(width: int, prec: int, minus: bool, zero: bool)

  function Fill(c: char, n: int): (s: seq<char>)
    ensures |s| == if n > 0 then n else 0
    ensures forall i :: 0 <= i < |s| ==> s[i] == c
  {
    if n > 0 then seq(n, _ => c) else []
  }

  function Zeros(num: seq<char>, lay: Layout): nat {
    if lay.prec > |num| then lay.prec - |num| else 0
  }

  function Padding(num: seq<char>, prefix: string, lay: Layout): int {
    lay.width - Zeros(num, lay) - |num| - |prefix|
  }

  // Digits with zeros, prefix and padding.
  function Laid(num: seq<char>, prefix: string, lay: Layout): seq<char> {
    var body := prefix + Fill('0', Zeros(num, lay)) + num;
    var pad := Padding(num, prefix, lay);
    if lay.minus then body + Fill(' ', pad) else Fill(if lay.zero then '0' else ' ', pad) + body
  }

  function UlongText(value: nat, base: nat, upper: bool, prefix: string, lay: Layout): seq<char>
    requires 2 <= base <= 16
  {
    Laid(Numeral(value, base, upper), prefix, lay)
  }

  lemma FilledSeq(c: char, n: int)
    ensures Fill(c, n) == seq(if n > 0 then n else 0, _ => c)
  {
  }

  lemma LaidShows(num: seq<char>, prefix: string, lay: Layout, zeros: nat, pad: nat)
    requires zeros == if lay.prec > |num| then lay.prec - |num| else 0
    requires var needed := |prefix| + zeros + |num|;
             pad == if lay.width > needed then lay.width - needed else 0
    ensures var body := prefix + seq(zeros, _ => '0') + num;
            Laid(num, prefix, lay)
            == if lay.minus then body + seq(pad, _ => ' ') else seq(pad, _ => if lay.zero then '0' else ' ') + body
  {
    FilledSeq('0', zeros);
    FilledSeq(' ', Padding(num, prefix, lay));
    FilledSeq('0', Padding(num, prefix, lay));
    hide Fill;
  }

  // The field is filled up to its width, and grows beyond it rather than lose a digit.
  lemma UlongLength(value: nat, base: nat, upper: bool, prefix: string, lay: Layout)
    requires 2 <= base <= 16
    ensures var num := Numeral(value, base, upper);
            var needed := |prefix| + Zeros(num, lay) + |num|;
            |UlongText(value, base, upper, prefix, lay)| == if lay.width > needed then lay.width else needed
  {
  }

  /// hextoi

  // The value of the hexadecimal digits s starts with, after the value v so far.
  function HexRun(s: seq<char>, v: nat): nat {
    if s == [] || DigitOf(s[0]) < 0 then v
    else HexRun(s[1..], (v * 16 + DigitOf(s[0])) % UINT_RANGE)
  }

  function HexBody(s: seq<char>): seq<char> {
    if |s| >= 2 && s[0] == '0' && (s[1] == 'x' || s[1] == 'X') then s[2..] else s
  }

  function Hex(s: seq<char>): nat { HexRun(HexBody(s), 0) }

  // n is where the digits end.
  method Hextoi(hexstring: string) returns (v: nat, ghost n: nat)
    ensures v == Hex(hexstring)
    ensures var start := if |hexstring| >= 2 && (hexstring[..2] == "0x" || hexstring[..2] == "0X") then 2 else 0;
            && start <= n <= |hexstring| && v == ReadIn(16, hexstring[start..n]) % 0x1_0000_0000
            && (forall i :: start <= i < n ==> DigitOf(hexstring[i]) >= 0)
            && (n < |hexstring| ==> DigitOf(hexstring[n]) < 0)
  {
    hide ReadIn, DigitOf, HexRun;
    v := 0;
    var h := 0;
    if |hexstring| >= 2 && hexstring[0] == '0' && (hexstring[1] == 'x' || hexstring[1] == 'X') {
      h := 2;
    }
    n := h;
    ghost var start := h;
    ReadInMore(16, [], ' ');
    assert hexstring[start..h] == [];
    while h < |hexstring|
      invariant start <= h == n <= |hexstring|
      invariant HexRun(hexstring[h..], v) == Hex(hexstring) && v == ReadIn(16, hexstring[start..h]) % UINT_RANGE
      invariant forall i :: start <= i < h ==> DigitOf(hexstring[i]) >= 0
    {
      var c := DigitOf(hexstring[h]);
      HexStep(hexstring, start, h, v);
      if c < 0 {
        return;
      }
      v := (v * 16 + c) % UINT_RANGE;
      h, n := h + 1, h + 1;
    }
    HexRunEnd(v);
    assert hexstring[h..] == [];
  }

  lemma HexRunEnd(v: nat)
    ensures HexRun([], v) == v
  {
  }

  // One more digit, or the end of the digits.
  lemma HexStep(s: seq<char>, start: nat, h: nat, v: nat)
    requires start <= h < |s| && v == ReadIn(16, s[start..h]) % UINT_RANGE
    ensures var c := DigitOf(s[h]);
            if c < 0 then HexRun(s[h..], v) == v
            else HexRun(s[h..], v) == HexRun(s[h + 1..], (v * 16 + c) % UINT_RANGE)
                 && (v * 16 + c) % UINT_RANGE == ReadIn(16, s[start..h + 1]) % UINT_RANGE
  {
    hide DigitOf, ReadIn;
    var c := DigitOf(s[h]);
    if c >= 0 {
      assert s[h..][1..] == s[h + 1..];
      ReadInMore(16, s[start..h], s[h]);
      assert s[start..h] + [s[h]] == s[start..h + 1];
      ModStep(ReadIn(16, s[start..h]), c);
    }
  }

  lemma {:induction false} HexOfNumeral(v: nat, upper: bool, rest: seq<char>)
    ensures HexRun(Numeral(v, 16, upper) + rest, 0) == HexRun(rest, v % UINT_RANGE)
  {
    var d := Digit(v % 16, upper);
    assert DigitOf(d) == v % 16;
    assert ([d] + rest)[1..] == rest;
    if v < 16 {
      assert HexRun([d] + rest, 0) == HexRun(rest, v);
    } else {
      var q := v / 16;
      HexOfNumeral(q, upper, [d] + rest);
      assert Numeral(v, 16, upper) + rest == Numeral(q, 16, upper) + ([d] + rest);
      ModStep(q, v % 16);
    }
  }

  lemma ModStep(q: int, d: nat)
    ensures (q % UINT_RANGE * 16 + d) % UINT_RANGE == (16 * q + d) % UINT_RANGE
  {
    var k, r := q / UINT_RANGE, q % UINT_RANGE;
    Multiples(16 * r + d, 16 * k);
  }

  lemma Multiples(a: int, m: int)
    ensures (a + UINT_RANGE * m) % UINT_RANGE == a % UINT_RANGE
  {
    var q, r := a / UINT_RANGE, a % UINT_RANGE;
    assert a + UINT_RANGE * m == UINT_RANGE * (q + m) + r;
  }

  lemma {:induction false} HexOfZeros(n: nat, rest: seq<char>)
    ensures HexRun(Fill('0', n) + rest, 0) == HexRun(rest, 0)
  {
    if n > 0 {
      HexOfZeros(n - 1, rest);
      assert (Fill('0', n) + rest)[1..] == Fill('0', n - 1) + rest;
    } else {
      assert Fill('0', n) + rest == rest;
    }
  }

  lemma {:induction false} NumeralIsHex(v: nat, upper: bool)
    ensures forall i :: 0 <= i < |Numeral(v, 16, upper)| ==> DigitOf(Numeral(v, 16, upper)[i]) >= 0
    ensures |Numeral(v, 16, upper)| > 0
  {
    if v >= 16 {
      NumeralIsHex(v / 16, upper);
    }
  }

  // hextoi can read the text: nothing stands in front of the digits but an optional 0x, or zeros.
  predicate Readable(value: nat, upper: bool, prefix: string, lay: Layout) {
    || lay.minus
    || Padding(Numeral(value, 16, upper), prefix, lay) <= 0
    || (lay.zero && prefix == "")
  }

  predicate HexPrefix(prefix: string) { prefix == "" || prefix == "0x" || prefix == "0X" }

  // Digits, possibly after zeros, possibly before spaces, read as their number.
  lemma HexOfDigits(value: nat, upper: bool, zeros: nat, spaces: int)
    ensures var digits := Fill('0', zeros) + (Numeral(value, 16, upper) + Fill(' ', spaces));
            HexRun(digits, 0) == value % UINT_RANGE && HexBody(digits) == digits
  {
    var num, tail := Numeral(value, 16, upper), Fill(' ', spaces);
    NumeralIsHex(value, upper);
    HexOfZeros(zeros, num + tail);
    HexOfNumeral(value, upper, tail);
    assert HexRun(tail, value % UINT_RANGE) == value % UINT_RANGE;
    hide HexRun;
    var digits := Fill('0', zeros) + (num + tail);
    if |digits| >= 2 {
      var k := 1 - zeros;
      assert digits[1] == if k < 0 then '0' else (num + tail)[k];
    }
  }

  // The same after a 0x.
  lemma HexOfBody(value: nat, upper: bool, prefix: string, zeros: nat, spaces: int)
    requires HexPrefix(prefix)
    ensures Hex(prefix + Fill('0', zeros) + Numeral(value, 16, upper) + Fill(' ', spaces)) == value % UINT_RANGE
  {
    var num, tail := Numeral(value, 16, upper), Fill(' ', spaces);
    var digits := Fill('0', zeros) + (num + tail);
    HexOfDigits(value, upper, zeros, spaces);
    hide HexRun, Numeral, Fill;
    Edits.Assoc(prefix + Fill('0', zeros), num, tail);
    Edits.Assoc(prefix, Fill('0', zeros), num + tail);
    if prefix == "" {
      assert prefix + digits == digits;
    } else {
      assert (prefix + digits)[2..] == digits;
    }
  }

  // Leading spaces, and zeros in front of a 0x, stop the reading at once.
  lemma HexOfSpaces(n: nat, rest: seq<char>)
    requires n > 0
    ensures Hex(Fill(' ', n) + rest) == 0
  {
    assert (Fill(' ', n) + rest)[0] == ' ';
  }

  lemma HexOfFilled(n: nat, prefix: string, rest: seq<char>)
    requires n > 0 && (prefix == "0x" || prefix == "0X")
    ensures Hex(Fill('0', n) + (prefix + rest)) == 0
  {
    var after := prefix[1..] + rest;
    var all := Fill('0', n) + (prefix + rest);
    assert all == Fill('0', n + 1) + after;
    HexOfZeros(n + 1, after);
    assert HexRun(after, 0) == 0;
    assert HexBody(all) == all;
  }

  // The text of a number, grouped from the right.
  lemma TextIs(value: nat, upper: bool, prefix: string, lay: Layout)
    ensures var num := Numeral(value, 16, upper);
            var zeros, pad := Zeros(num, lay), Padding(num, prefix, lay);
            var tail := prefix + Fill('0', zeros) + num;
            UlongText(value, 16, upper, prefix, lay)
            == if lay.minus then tail + Fill(' ', pad)
               else if pad <= 0 then tail + Fill(' ', 0)
               else if !lay.zero then Fill(' ', pad) + tail
               else if prefix == "" then prefix + Fill('0', pad + zeros) + num + Fill(' ', 0)
               else Fill('0', pad) + (prefix + (Fill('0', zeros) + num))
  {
    hide Numeral;
    var num := Numeral(value, 16, upper);
    var zeros, pad := Zeros(num, lay), Padding(num, prefix, lay);
    if lay.minus || pad <= 0 {
      assert Fill('0', pad) == Fill(' ', pad) == [] || lay.minus;
    } else if lay.zero && prefix == "" {
      assert Fill('0', pad) + Fill('0', zeros) == Fill('0', pad + zeros);
    }
  }

  // Reading a formatted base-16 number gives its low 32 bits back, or 0 if padding is in the way.
  lemma HexReadsBack(value: nat, upper: bool, prefix: string, lay: Layout)
    requires HexPrefix(prefix)
    ensures Hex(UlongText(value, 16, upper, prefix, lay))
         == if Readable(value, upper, prefix, lay) then value % UINT_RANGE else 0
  {
    var num := Numeral(value, 16, upper);
    var zeros, pad := Zeros(num, lay), Padding(num, prefix, lay);
    TextIs(value, upper, prefix, lay);
    hide Numeral, Hex, UlongText, Fill;
    if lay.minus {
      HexOfBody(value, upper, prefix, zeros, pad);
    } else if pad <= 0 {
      HexOfBody(value, upper, prefix, zeros, 0);
    } else if !lay.zero {
      HexOfSpaces(pad, prefix + Fill('0', zeros) + num);
    } else if prefix == "" {
      HexOfBody(value, upper, prefix, pad + zeros, 0);
    } else {
      HexOfFilled(pad, prefix, Fill('0', zeros) + num);
    }
  }
}
