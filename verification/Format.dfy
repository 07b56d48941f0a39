/** The formatter of utils/misc.c: a bounded buffer that grows in steps of 64, and what ends up
    in it.

    The ghost field put is everything that has been put, NULs included; the buffer always holds
    the longest prefix of its visible part that the limit allows.
  */
module Format {
  import opened BlockClasses
  import Edits
  import opened Numerals
  import Powers
  import opened Ulong

  const STR_INC := 64

  // How many characters a buffer of the given size can come to hold, however much is put.
  function Limit(grows: bool, size: int, max: int): (l: int)
    ensures l >= size - 1 && (grows ==> l >= 0)
    decreases if size < max then max - size else 0, if size <= 0 then 1 - size else 0
  {
    if grows && (size + STR_INC <= max || size <= 0) then Limit(grows, size + STR_INC, max) else size - 1
  }

  // A buffer of m characters grows in whole steps as long as it stays within max.
  lemma {:induction false} LimitFrom(m: int, max: int)
    requires m > 0
    ensures Limit(true, m, max) == if max >= m + STR_INC then m + STR_INC * ((max - m) / STR_INC) - 1 else m - 1
    decreases if m < max then max - m else 0
  {
    if m + STR_INC <= max {
      LimitFrom(m + STR_INC, max);
    }
  }

  // A new dynamic buffer with n >= 64 holds 64 * (n / 64) - 1 characters; with less, still 63.
  lemma FreshLimit(max: int)
    ensures Limit(true, 0, max) == if max >= STR_INC then STR_INC * (max / STR_INC) - 1 else STR_INC - 1
  {
    LimitFrom(STR_INC, max);
  }

  // Text without its NULs.
  function Visible(text: seq<char>): seq<char> {
    if text == [] then []
    else Visible(text[..|text| - 1]) + if text[|text| - 1] != '\0' then [text[|text| - 1]] else []
  }

  lemma {:induction false} VisibleCat(a: seq<char>, b: seq<char>)
    ensures Visible(a + b) == Visible(a) + Visible(b)
  {
    if b == [] {
      assert a + b == a;
    } else {
      VisibleCat(a, b[..|b| - 1]);
      assert (a + b)[..|a + b| - 1] == a + b[..|b| - 1];
    }
  }

  lemma VisibleOne(c: char)
    ensures Visible([c]) == if c == '\0' then [] else [c]
  {
    assert [c][..0] == [];
  }

  lemma {:induction false} VisibleAll(text: seq<char>)
    requires forall i :: 0 <= i < |text| ==> text[i] != '\0'
    ensures Visible(text) == text
  {
    if text != [] {
      VisibleAll(text[..|text| - 1]);
    }
  }

  // The part of the visible text that room characters can hold.
  function Kept(put: seq<char>, room: nat): seq<char> {
    if |Visible(put)| <= room then Visible(put) else Visible(put)[..room]
  }

  lemma KeptMore(put: seq<char>, c: char, room: nat)
    ensures Kept(put + [c], room)
         == if c == '\0' || |Kept(put, room)| == room then Kept(put, room) else Kept(put, room) + [c]
  {
    VisibleCat(put, [c]);
    VisibleOne(c);
    hide Visible;
    if c == '\0' {
      assert Visible(put) + [] == Visible(put);
    } else if |Visible(put)| > room {
      assert (Visible(put) + [c])[..room] == Visible(put)[..room];
    }
  }

  predicate EndsNul(put: seq<char>) { put != [] && put[|put| - 1] == '\0' }

  // What place i of a buffer holds while nothing has been written there.
  function Before(start: seq<char>, mem: int -> char, i: nat): char { if i < |start| then start[i] else mem(i) }

  // A buffer after put: the text, a NUL behind it if that was put last, and nothing else written.
  ghost predicate Fits(now: seq<char>, put: seq<char>, room: nat, start: seq<char>, mem: int -> char) {
    var n := |Kept(put, room)|;
    && n < |now| && |start| <= |now| && now[..n] == Kept(put, room)
    && now[n] == (if EndsNul(put) && n < room then '\0' else Before(start, mem, n))
    && forall i :: n < i < |now| ==> now[i] == Before(start, mem, i)
  }

  // Nothing is written when there is no room left ...
  lemma FitsFull(now: seq<char>, put: seq<char>, room: nat, start: seq<char>, mem: int -> char, c: char)
    requires Fits(now, put, room, start, mem) && |Kept(put, room)| == room
    ensures Fits(now, put + [c], room, start, mem) && |Kept(put + [c], room)| == room
  {
    KeptMore(put, c, room);
    hide Kept;
  }

  // ... a NUL ends the text for the time being ...
  lemma FitsNul(now: seq<char>, put: seq<char>, room: nat, start: seq<char>, mem: int -> char)
    requires Fits(now, put, room, start, mem) && |Kept(put, room)| < room
    ensures Kept(put + ['\0'], room) == Kept(put, room)
    ensures Fits(now[|Kept(put, room)| := '\0'], put + ['\0'], room, start, mem)
  {
    KeptMore(put, '\0', room);
    hide Kept;
  }

  // ... and any other character makes it longer.
  lemma FitsMore(now: seq<char>, put: seq<char>, room: nat, start: seq<char>, mem: int -> char, c: char)
    requires Fits(now, put, room, start, mem) && |Kept(put, room)| < room && |Kept(put, room)| + 1 < |now| && c != '\0'
    ensures |Kept(put + [c], room)| == |Kept(put, room)| + 1
    ensures Fits(now[|Kept(put, room)| := c], put + [c], room, start, mem)
  {
    KeptMore(put, c, room);
    hide Kept;
  }

  lemma FitsGrown(now: seq<char>, more: seq<char>, put: seq<char>, room: nat, start: seq<char>, mem: int -> char)
    requires Fits(now, put, room, start, mem)
    requires |now| <= |more| && more[..|now|] == now && forall i :: |now| <= i < |more| ==> more[i] == mem(i)
    ensures Fits(more, put, room, start, mem)
  {
    hide Kept;
  }

  lemma FitsNew(now: seq<char>, room: nat, mem: int -> char)
    requires now != [] && forall i :: 0 <= i < |now| ==> now[i] == mem(i)
    ensures Fits(now, [], room, [], mem) && Kept([], room) == []
  {
  }

  // A buffer with a text in it.
  lemma FitsStart(now: seq<char>, text: seq<char>, room: nat, mem: int -> char)
    requires |text| <= room && |text| < |now| && now[..|text|] == text && '\0' !in text
    ensures Fits(now, text, room, now, mem) && Kept(text, room) == text
  {
    VisibleAll(text);
  }

  // What a buffer keeps of a text without NULs and what is put behind it.
  lemma KeptIs(text: seq<char>, raw: seq<char>, room: nat)
    requires '\0' !in text
    ensures var all := text + Visible(raw);
            && Kept(text + raw, room) == all[..Shorter(|all|, room)] == Kept(text + raw + ['\0'], room)
            && |Kept(text + raw, room)| == Shorter(|all|, room)
    ensures EndsNul(text + raw) <==> EndsNul(raw)
  {
    VisibleAll(text);
    VisibleCat(text, raw);
    KeptMore(text + raw, '\0', room);
    if raw != [] {
      assert (text + raw)[|text + raw| - 1] == raw[|raw| - 1];
    } else if text != [] {
      assert text[|text| - 1] in text;
    }
    hide Visible;
  }

  // What a buffer holds after text and raw, or after the NUL that stands for putting nothing.
  lemma FitsTells(now: seq<char>, put: seq<char>, text: seq<char>, raw: seq<char>, room: nat, start: seq<char>, mem: int -> char)
    requires Fits(now, put, room, start, mem) && '\0' !in text
    requires put == text + raw || (text == [] && raw == [] && put == ['\0'])
    ensures var all := text + Visible(raw);
            var n := Shorter(|all|, room);
            && n == |Kept(put, room)| && n < |now| && now[..n] == all[..n]
            && now[n] == (if n < room && (EndsNul(raw) || put != text + raw) then '\0' else Before(start, mem, n))
  {
    KeptIs(text, raw, room);
    assert text == [] && raw == [] ==> text + raw + ['\0'] == ['\0'];
    hide Visible, Kept;
  }

  lemma LimitStep(grows: bool, size: int, max: int)
    ensures Limit(grows, size, max)
         == if grows && (size + STR_INC <= max || size <= 0) then Limit(grows, size + STR_INC, max) else size - 1
    ensures Limit(grows, size, max) >= size - 1
  {
  }

  /// What a directive shows

  function Shorter(a: int, b: int): (c: int)
    ensures c <= a && c <= b && (c == a || c == b)
  {
    if a < b then a else b
  }

  // A string directive: len is the string's own length if negative, else it is given (Pascal
  // style); prec cuts; width pads.
  function Taken(text: string, len: int, prec: int): int {
    if len < 0 then (if prec >= 0 then Shorter(|text|, prec) else |text|)
    else if 0 <= prec < len then prec else len
  }

  function StringText(text: string, len: int, width: int, prec: int, minus: bool): seq<char>
    requires len <= |text|
  {
    var n := Taken(text, len, prec);
    var pad := Fill(' ', width - n);
    if minus then text[..n] + pad else pad + text[..n]
  }

  datatype Piece =
    | Chr(c: char)
    | Str(text: string, len: int, width: int, prec: int, minus: bool)
    | Num(value: nat, base: nat, upper: bool, prefix: string, lay: Layout)

  predicate Sound(p: Piece, max: nat) {
    match p
    case Chr(_) => true
    case Str(text, len, _, _, _) => len <= |text|
    case Num(value, base, _, _, _) => value <= max && IsBase(base)
  }

  function Render(p: Piece, max: nat): seq<char>
    requires Sound(p, max)
  {
    match p
    case Chr(c) => [c]
    case Str(text, len, width, prec, minus) => StringText(text, len, width, prec, minus)
    case Num(value, base, upper, prefix, lay) => UlongText(value, base, upper, prefix, lay)
  }

  function RenderAll(ps: seq<Piece>, max: nat): seq<char>
    requires forall i :: 0 <= i < |ps| ==> Sound(ps[i], max)
  {
    if ps == [] then []
    else RenderAll(ps[..|ps| - 1], max) + Render(ps[|ps| - 1], max)
  }

  // What a number shows: its digits, which read as the number in its base and have the case asked
  // for, zeros up to the precision, the prefix, and padding up to the width on the side asked for.
  lemma NumShown(value: nat, base: nat, upper: bool, prefix: string, lay: Layout, max: nat)
    requires Sound(Num(value, base, upper, prefix, lay), max)
    ensures var num := Numeral(value, base, upper);
            var zeros: nat := if lay.prec > |num| then lay.prec - |num| else 0;
            var body, needed := prefix + seq(zeros, _ => '0') + num, |prefix| + zeros + |num|;
            var pad: nat := if lay.width > needed then lay.width - needed else 0;
            && Render(Num(value, base, upper, prefix, lay), max)
               == (if lay.minus then body + seq(pad, _ => ' ') else seq(pad, _ => if lay.zero then '0' else ' ') + body)
            && ReadIn(base, num) == value && forall i :: 0 <= i < |num| ==> RightCase(num[i], upper)
  {
    hide Numeral, ReadIn, RightCase, DigitOf, Laid;
    NumeralReads(value, base, upper);
    NumeralShows(value, base, upper);
    var num := Numeral(value, base, upper);
    var zeros: nat := if lay.prec > |num| then lay.prec - |num| else 0;
    var needed := |prefix| + zeros + |num|;
    LaidShows(num, prefix, lay, zeros, if lay.width > needed then lay.width - needed else 0);
  }

  // What a string shows: as much of it as its length and the precision allow, padded with spaces on
  // the side asked for.
  lemma StrShown(text: string, len: int, width: int, prec: int, minus: bool, max: nat)
    requires Sound(Str(text, len, width, prec, minus), max)
    ensures var whole := if len < 0 then |text| else len;
            var n: nat := if 0 <= prec < whole then prec else whole;
            var pad: nat := if width > n then width - n else 0;
            Render(Str(text, len, width, prec, minus), max)
            == if minus then text[..n] + seq(pad, _ => ' ') else seq(pad, _ => ' ') + text[..n]
  {
    var n := Taken(text, len, prec);
    FilledSeq(' ', width - n);
  }

  lemma ChrShown(c: char, max: nat)
    ensures Render(Chr(c), max) == [c]
  {
  }

  // A string's text, put piece by piece behind was; no padding is an empty piece.
  lemma StringParts(text: string, len: int, width: int, prec: int, minus: bool, was: seq<char>)
    requires len <= |text|
    ensures var n := Taken(text, len, prec);
            var body, pad := text[..n], Fill(' ', width - n);
            && was + StringText(text, len, width, prec, minus) == (if minus then was + body + pad else was + pad + body)
            && (width <= n ==> was + pad == was && was + body + pad == was + body)
  {
    var n := Taken(text, len, prec);
    var body, pad := text[..n], Fill(' ', width - n);
    hide Taken, Fill;
    NoFill(' ', width - n);
    Edits.Assoc(was, pad, body);
    Edits.Assoc(was, body, pad);
  }

  lemma NoFill(c: char, n: int)
    ensures n <= 0 ==> Fill(c, n) == []
  {
  }

  lemma FillMore(c: char, n: nat)
    ensures Fill(c, n) + [c] == Fill(c, n + 1)
  {
  }

  lemma PrefixText(prefix: string)
    ensures StringText(prefix, -1, 0, -1, false) == prefix
  {
  }

  /// The buffer

  method StringLength(text: string, len: int, prec: int) returns (n: int)
    requires len <= |text|
    ensures 0 <= n <= |text| && n == Taken(text, len, prec)
  {
    n := len;
    if n < 0 {
      n := if prec >= 0 then Shorter(|text|, prec) else |text|;
    } else if 0 <= prec < n {
      n := prec;
    }
  }

  class StrBuf {
    var s: array?<char>
    var size: int
    const max: int
    var count: nat
    const grows: bool
    const mem: int -> char  // what newly allocated memory holds
    ghost const room: nat  // the number of characters it can come to hold
    ghost const fromNull: bool
    ghost const start: seq<char>  // the buffer before anything is put
    ghost var put: seq<char>

    ghost predicate Valid()
      reads this, s
    {
      && room == Limit(grows, size, max)
      && count == |Kept(put, room)|
      && (s == null <==> fromNull && put == [])
      && (s == null ==> grows && size == 0 && start == [])
      && (s != null ==> 0 < size <= s.Length && count < size && Fits(s[..], put, room, start, mem))
    }

    lemma NullTells()
      requires Valid()
      ensures s == null <==> fromNull && put == []
    {
    }

    // What a buffer with text and raw in it looks like.
    lemma Tells(text: seq<char>, raw: seq<char>)
      requires Valid() && s != null && '\0' !in text
      requires put == text + raw || (text == [] && raw == [] && put == ['\0'])
      ensures var all := text + Visible(raw);
              var n := Shorter(|all|, room);
              && count == n && n <= room && n < size <= s.Length && s[..n] == all[..n]
              && s[n] == (if n < room && (EndsNul(raw) || put != text + raw) then '\0' else Before(start, mem, n))
      ensures (grows ==> size > max) ==> room == size - 1
    {
      hide Limit, Fits;
      FitsTells(s[..], put, text, raw, room, start, mem);
      LimitStep(grows, size, max);
      hide Kept, Visible;
    }

    // A caller's buffer of the given size.
    constructor Static(s: array<char>, size: int, mem: int -> char)
      requires 0 < size <= s.Length
      ensures Valid() && put == [] && this.s == s && !grows && this.size == size && room == size - 1
      ensures !fromNull && start == s[..] && this.mem == mem
    {
      FitsStart(s[..], [], size - 1, mem);
      room := Limit(false, size, 0);
      this.s, this.size, max, count, grows, this.mem := s, size, 0, 0, false, mem;
      put, fromNull, start := [], false, s[..];
    }

    // No buffer yet; at most max characters are wanted.
    constructor Dynamic(max: int, mem: int -> char)
      ensures Valid() && put == [] && s == null && grows && this.max == max && room == Limit(true, 0, max)
      ensures fromNull && start == [] && this.mem == mem
    {
      room := Limit(true, 0, max);
      s, size, this.max, count, grows, this.mem := null, 0, max, 0, true, mem;
      put, fromNull, start := [], true, [];
    }

    // A buffer of msize characters that already holds text.
    constructor Append(s: array<char>, max: int, msize: int, text: seq<char>, mem: int -> char)
      requires |text| < msize <= s.Length && s[..|text|] == text && '\0' !in text
      ensures Valid() && put == text && this.s == s && grows && this.max == max && room == Limit(true, msize, max)
      ensures !fromNull && start == s[..] && this.mem == mem
    {
      FitsStart(s[..], text, Limit(true, msize, max), mem);
      room := Limit(true, msize, max);
      this.s, size, this.max, count, grows, this.mem := s, msize, max, |text|, true, mem;
      put, fromNull, start := text, false, s[..];
    }

    // balloc or brealloc to at least newsize characters: a block that is large enough is kept.
    method Resize(newsize: nat)
      requires s != null ==> count <= s.Length
      modifies this`s
      ensures s != null && s.Length >= newsize && (s == old(s) || fresh(s))
      ensures old(s) != null ==> old(s).Length <= s.Length && s[..old(s).Length] == old(s[..])
      ensures forall i :: (if old(s) != null then old(s).Length else 0) <= i < s.Length ==> s[i] == mem(i)
    {
      if s != null && s.Length >= newsize {
        return;
      }
      var bytes, q := GetSize(newsize, 0);
      ClassIsSmallestFit(newsize, q);
      var block := new char[bytes](i => mem(i));
      if s != null {
        var from: array<char> := s;
        var i := 0;
        while i < from.Length
          invariant 0 <= i <= from.Length && block[..i] == from[..i]
          invariant forall k :: i <= k < block.Length ==> block[k] == mem(k)
        {
          block[i] := from[i];
          i := i + 1;
        }
      }
      s := block;
    }

    // The buffer grows by one step if it may; tells whether there is room now.
    method MakeRoom() returns (ok: bool)
      requires Valid()
      modifies this`s, this`size
      ensures room == Limit(grows, size, max) && (s == old(s) || (grows && fresh(s)))
      ensures ok ==> s != null && count < room && count + 1 < size <= s.Length && Fits(s[..], put, room, start, mem)
      ensures !ok ==> Valid() && s != null && count == room
    {
      hide Limit, Fits, Kept;
      LimitStep(grows, size, max);
      ok := true;
      if count >= size - 1 {
        if !grows {
          return false;
        }
        size := size + STR_INC;
        LimitStep(grows, size, max);
        if size > max && size > STR_INC {
          size := size - STR_INC;
          return false;
        }
        ghost var was := if s == null then [] else s[..];
        Resize(size);
        if was == [] {
          FitsNew(s[..], room, mem);
        } else {
          FitsGrown(was, s[..], put, room, start, mem);
        }
      }
    }

    method PutChar(c: char)
      requires Valid()
      modifies this, s
      ensures Valid() && (s == old(s) || (grows && fresh(s)))
      ensures put == old(put) + [c]
    {
      hide Limit, Fits, Kept;
      var ok := MakeRoom();
      if !ok {
        FitsFull(s[..], put, room, start, mem, c);
        put := put + [c];
        return;
      }
      ghost var was := s[..];
      s[count] := c;
      assert s[..] == was[count := c];
      if c == '\0' {
        FitsNul(was, put, room, start, mem);
      } else {
        FitsMore(was, put, room, start, mem, c);
      }
      put := put + [c];
      if c != '\0' {
        count := count + 1;
      }
    }

    method PutFill(c: char, n: int)
      requires Valid()
      modifies this, s
      ensures Valid() && (s == old(s) || (grows && fresh(s)))
      ensures put == old(put) + Fill(c, n)
    {
      hide *;
      var i := 0;
      NoFill(c, n);
      NoFill(c, i);
      while i < n
        invariant 0 <= i && (i <= n || i == 0)
        invariant Valid() && (s == old(s) || (grows && fresh(s)))
        invariant put == old(put) + Fill(c, i)
      {
        FillMore(c, i);
        PutChar(c);
        i := i + 1;
      }
    }

    method PutText(text: seq<char>)
      requires Valid()
      modifies this, s
      ensures Valid() && (s == old(s) || (grows && fresh(s)))
      ensures put == old(put) + text
    {
      hide *;
      var i := 0;
      while i < |text|
        invariant 0 <= i <= |text|
        invariant Valid() && (s == old(s) || (grows && fresh(s)))
        invariant put == old(put) + text[..i]
      {
        PutChar(text[i]);
        i := i + 1;
      }
      assert text[..i] == text;
    }

    method PutString(text: string, len: int, width: int, prec: int, minus: bool)
      requires Valid() && len <= |text|
      modifies this, s
      ensures Valid() && (s == old(s) || (grows && fresh(s)))
      ensures put == old(put) + StringText(text, len, width, prec, minus)
    {
      hide *;
      var n := StringLength(text, len, prec);
      ghost var was, body, pad := put, text[..n], Fill(' ', width - n);
      StringParts(text, len, width, prec, minus, was);
      if width > n && !minus {
        PutFill(' ', width - n);
      }
      assert put == if minus then was else was + pad;
      PutText(text[..n]);
      if width > n && minus {
        PutFill(' ', width - n);
      }
    }

    // The digits of value from the power x = base^(n-1) of its leading one down.
    method PutDigits(value: nat, base: nat, upper: bool, leading: nat, ghost n: nat)
      requires Valid() && 2 <= base <= 16 && n > 0 && leading == Powers.Pow(base, n - 1)
      modifies this, s
      ensures Valid() && (s == old(s) || (grows && fresh(s)))
      ensures put == old(put) + LastDigits(value, base, upper, n)
    {
      hide LastDigits, Valid;
      var x := leading;
      ghost var k := n;
      LastNone(value, base, upper);
      while x > 0
        invariant 0 <= k <= n && x == if k > 0 then Powers.Pow(base, k - 1) else 0
        invariant Valid() && (s == old(s) || (grows && fresh(s)))
        invariant put + LastDigits(value, base, upper, k) == old(put) + LastDigits(value, base, upper, n)
        decreases k
      {
        var digit := value / x % base;
        FirstDigit(value, base, upper, k - 1);
        PowDown(base, k);
        PutChar(Digit(digit, upper));
        x := x / base;
        k := k - 1;
      }
    }

    method PutUlong(value: nat, base: nat, upper: bool, prefix: string, lay: Layout, max: nat)
      requires Valid() && IsBase(base) && value <= max && (max == ULONG_MAX_32 || max == ULONG_MAX_64)
      modifies this, s
      ensures Valid() && (s == old(s) || (grows && fresh(s)))
      ensures put == old(put) + UlongText(value, base, upper, prefix, lay)
    {
      hide *;
      BaseRange(base);
      PrefixText(prefix);
      ScanSafeHere(base, max);
      var x, len := LeadingPower(value, base, max);
      AllDigits(value, base, upper, len);
      var zeros := if lay.prec > len then lay.prec - len else 0;
      var width := lay.width - (zeros + len) - |prefix|;
      ghost var was, pad := put, Fill(if lay.zero then '0' else ' ', width);
      ghost var mid, num := Fill('0', zeros), Numeral(value, base, upper);
      if !lay.minus {
        PutFill(if lay.zero then '0' else ' ', width);
      }
      ghost var now := put;
      PutString(prefix, -1, 0, -1, false);
      PutFill('0', zeros);
      PutDigits(value, base, upper, x, len);
      if lay.minus {
        PutFill(' ', width);
      }
      UlongParts(value, base, upper, prefix, lay, zeros, width, was);
    }
  }

  // A number's text, put piece by piece behind was.
  lemma UlongParts(value: nat, base: nat, upper: bool, prefix: string, lay: Layout, zeros: int, width: int, was: seq<char>)
    requires 2 <= base <= 16
    requires var len := |Numeral(value, base, upper)|;
             && zeros == (if lay.prec > len then lay.prec - len else 0)
             && width == lay.width - (zeros + len) - |prefix|
    ensures var mid, num := Fill('0', zeros), Numeral(value, base, upper);
            was + UlongText(value, base, upper, prefix, lay)
            == if lay.minus then was + prefix + mid + num + Fill(' ', width)
               else was + Fill(if lay.zero then '0' else ' ', width) + prefix + mid + num
  {
    hide Numeral, Fill;
    var mid, num := Fill('0', zeros), Numeral(value, base, upper);
    var body := prefix + mid + num;
    var pad := Fill(if lay.zero then '0' else ' ', width);
    Edits.Assoc(was, body, Fill(' ', width));
    Edits.Assoc(was, pad, body);
    var left := if lay.minus then was else was + pad;
    Edits.Assoc(left, prefix + mid, num);
    Edits.Assoc(left, prefix, mid);
  }

  // One directive, already parsed.
  method PutPiece(buf: StrBuf, p: Piece, max: nat)
    requires buf.Valid() && Sound(p, max) && (max == ULONG_MAX_32 || max == ULONG_MAX_64)
    modifies buf, buf.s
    ensures buf.Valid() && (buf.s == old(buf.s) || (buf.grows && fresh(buf.s)))
    ensures buf.put == old(buf.put) + Render(p, max)
  {
    match p
    case Chr(c) => buf.PutChar(c);
    case Str(text, len, width, prec, minus) => buf.PutString(text, len, width, prec, minus);
    case Num(value, base, upper, prefix, lay) => buf.PutUlong(value, base, upper, prefix, lay, max);
  }

  lemma RenderStep(ps: seq<Piece>, i: nat, max: nat)
    requires i < |ps| && forall j :: 0 <= j < |ps| ==> Sound(ps[j], max)
    ensures RenderAll(ps[..i + 1], max) == RenderAll(ps[..i], max) + Render(ps[i], max)
  {
    assert ps[..i + 1][..i] == ps[..i];
  }

  lemma RenderNone(max: nat)
    ensures RenderAll([], max) == []
  {
  }

  lemma RenderOne(p: Piece, max: nat)
    requires Sound(p, max) && '\0' !in Render(p, max)
    ensures Visible(RenderAll([p], max)) == RenderAll([p], max) == Render(p, max)
  {
    RenderStep([p], 0, max);
    RenderNone(max);
    VisibleAll(Render(p, max));
    hide RenderAll, Render, Visible;
    assert [p][..1] == [p] && [p][..0] == [] && [] + Render(p, max) == Render(p, max);
  }

  method PutPieces(buf: StrBuf, ps: seq<Piece>, max: nat)
    requires buf.Valid() && (forall i :: 0 <= i < |ps| ==> Sound(ps[i], max)) && (max == ULONG_MAX_32 || max == ULONG_MAX_64)
    modifies buf, buf.s
    ensures buf.Valid() && (buf.s == old(buf.s) || (buf.grows && fresh(buf.s)))
    ensures buf.put == old(buf.put) + RenderAll(ps, max)
  {
    hide *;
    RenderNone(max);
    var i := 0;
    while i < |ps|
      invariant 0 <= i <= |ps|
      invariant buf.Valid() && (buf.s == old(buf.s) || (buf.grows && fresh(buf.s)))
      invariant buf.put == old(buf.put) + RenderAll(ps[..i], max)
    {
      RenderStep(ps, i, max);
      Edits.Assoc(old(buf.put), RenderAll(ps[..i], max), Render(ps[i], max));
      PutPiece(buf, ps[i], max);
      i := i + 1;
    }
    assert ps[..i] == ps;
  }

  method StrLen(s: array<char>, ghost text: seq<char>) returns (n: nat)
    requires |text| < s.Length && s[..|text|] == text && s[|text|] == '\0' && '\0' !in text
    ensures n == |text|
  {
    n := 0;
    assert forall i :: 0 <= i < |text| ==> s[i] == text[i] && text[i] in text;
    while s[n] != '\0'
      invariant n <= |text|
      decreases |text| - n
    {
      n := n + 1;
    }
  }

  // What a call does with its buffer: a caller's own (msize 0), a new one, or one of msize
  // characters that already holds text and may grow.
  ghost predicate Starts(start: array?<char>, size: int, msize: int, text: seq<char>)
    reads start
  {
    if start == null then msize <= 0 && text == []
    else if msize == 0 then 0 < size <= start.Length && text == []
    else |text| < msize <= start.Length && start[..|text|] == text && start[|text|] == '\0' && '\0' !in text
  }

  // The number of characters such a buffer can come to hold.
  function Room(start: array?<char>, size: int, msize: int): int {
    if start != null && msize == 0 then size - 1 else Limit(true, if msize > 0 then msize else 0, size)
  }

  // What a buffer holds where nothing is written.
  ghost function Untouched(start: array?<char>, mem: int -> char, i: nat): char
    reads start
  {
    if start != null && i < start.Length then start[i] else mem(i)
  }

  // The buffer a call starts with.
  method Open(start: array?<char>, size: int, msize: int, mem: int -> char, ghost text: seq<char>) returns (buf: StrBuf)
    requires Starts(start, size, msize, text)
    ensures fresh(buf) && buf.Valid() && buf.put == text && buf.s == start && buf.mem == mem
    ensures buf.room == Room(start, size, msize) && (buf.grows ==> buf.max == size)
    ensures buf.grows <==> start == null || msize != 0
    ensures buf.fromNull <==> start == null
    ensures buf.start == if start == null then [] else start[..]
    ensures !buf.grows ==> buf.size == size
  {
    hide Limit, Fits, Kept;
    if start == null || msize != 0 {
      if start != null {
        var count := StrLen(start, text);
        buf := new StrBuf.Append(start, size, msize, start[..count], mem);
      } else {
        buf := new StrBuf.Dynamic(size, mem);
      }
    } else {
      buf := new StrBuf.Static(start, size, mem);
    }
  }

  // The terminator of a new buffer is where its text ends exactly if n is at least 64, or the text
  // is shorter than n, or it fills the 63 characters there are.
  lemma TerminatorPlace(size: int, msize: int, length: nat)
    requires size > 0 && msize <= 0
    ensures var room := Room(null, size, msize);
            var n := Shorter(length, room);
            (if n < size then n else room) == n <==> size >= STR_INC || length < size || length >= STR_INC - 1
  {
    FreshLimit(size);
  }

  lemma BeforeIs(start: array?<char>, mem: int -> char, before: seq<char>)
    requires before == if start == null then [] else start[..]
    ensures forall i: nat :: Before(before, mem, i) == Untouched(start, mem, i)
  {
  }

  lemma NulFree(start: array?<char>, size: int, msize: int, text: seq<char>)
    requires Starts(start, size, msize, text)
    ensures '\0' !in text && (start == null ==> msize <= 0 && text == []) && (start != null && msize == 0 ==> size > 0)
  {
  }

  // The last terminator goes behind the text if that is within size, else to the buffer's end.
  method Terminate(s: array<char>, size: int, count: nat, bufSize: nat) returns (ghost end: int)
    requires count < bufSize <= s.Length
    modifies s
    ensures end == if size <= 0 then -1 else if count < size then count else bufSize - 1
    ensures s[..] == if end < 0 then old(s[..]) else old(s[..])[end := '\0']
  {
    end := -1;
    if size > 0 {
      if count < size {
        s[count] := '\0';
        end := count;
      } else {
        s[bufSize - 1] := '\0';
        end := bufSize - 1;
      }
    }
  }

  // A caller's buffer keeps a place for the terminator; a new or a growing one reaches its limit.
  lemma RoomIs(start: array?<char>, size: int, msize: int)
    ensures Room(start, size, msize)
         == if start != null && msize == 0 then size - 1
            else if msize > 0 then (if size >= msize + STR_INC then msize + STR_INC * ((size - msize) / STR_INC) - 1 else msize - 1)
            else if size >= STR_INC then STR_INC * (size / STR_INC) - 1
            else STR_INC - 1
  {
    FreshLimit(size);
    if msize > 0 {
      LimitFrom(msize, size);
    }
  }

  // end is where the last terminator goes, -1 if none is written; mem is what newly allocated
  // memory holds.
  method Dsnprintf(start: array?<char>, size: int, ps: seq<Piece>, msize: int, max: nat, mem: int -> char, ghost text: seq<char>)
      returns (s: array<char>, result: int, ghost end: int)
    requires Starts(start, size, msize, text)
    requires (forall i :: 0 <= i < |ps| ==> Sound(ps[i], max)) && (max == ULONG_MAX_32 || max == ULONG_MAX_64)
    modifies start
    ensures s == start || fresh(s)
    ensures msize == 0 && start != null ==> s == start
    ensures var raw := RenderAll(ps, max);
            var all, room := text + Visible(raw), Room(start, size, msize);
            var n := Shorter(|all|, room);
            && 0 <= n < s.Length && s[..n] == all[..n]
            && (if msize == 0 then result == n else n < result <= s.Length)
            && end == (if size <= 0 then -1 else if n < size then n else room) < s.Length
            && (end >= 0 ==> s[end] == '\0')
            && (end != n ==> s[n] == if n < room && (EndsNul(raw) || (start == null && raw == [])) then '\0'
                                     else old(Untouched(start, mem, n)))
            && (start == null && size > 0 ==>
                  (end == n <==> size >= STR_INC || |all| < size || |all| >= STR_INC - 1))
  {
    hide *;
    ghost var raw := RenderAll(ps, max);
    NulFree(start, size, msize, text);
    ghost var before := if start == null then [] else start[..];
    BeforeIs(start, mem, before);
    assert text == [] ==> text + raw == raw;
    if start == null && size > 0 {
      TerminatorPlace(size, msize, |text + Visible(raw)|);
    }
    var buf := Open(start, size, msize, mem, text);
    PutPieces(buf, ps, max);
    buf.NullTells();
    if buf.s == null {
      buf.PutChar('\0');
      buf.NullTells();
    }
    buf.Tells(text, raw);
    s := buf.s;
    end := Terminate(s, size, buf.count, buf.size);
    result := if msize != 0 then buf.size else buf.count;
  }

  lemma TwentyInTen(text: string)
    requires text == "abcdefghijklmnopqrst"
    ensures var p := Str(text, -1, 0, -1, false);
            Sound(p, ULONG_MAX_32) && RenderAll([p], ULONG_MAX_32) == Visible(RenderAll([p], ULONG_MAX_32)) == text
    ensures |text| == 20 && !EndsNul(text) && [] + text == text && Room(null, 10, 0) == 63
  {
    PrefixText(text);
    RenderOne(Str(text, -1, 0, -1, false), ULONG_MAX_32);
    FreshLimit(10);
    hide RenderAll, Visible, Limit;
  }

  // Twenty characters for a new buffer of ten: the text has no end.
  method EndsLate(mem: int -> char) returns (s: array<char>, result: int)
    ensures result == 20 && s.Length >= 64 && s[20] == mem(20) && s[63] == '\0'
  {
    var text := "abcdefghijklmnopqrst";
    TwentyInTen(text);
    var p := Str(text, -1, 0, -1, false);
    hide Visible, RenderAll, Render, Sound, Limit, Room, EndsNul;
    ghost var end;
    s, result, end := Dsnprintf(null, 10, [p], 0, ULONG_MAX_32, mem, []);
  }

  // One character for a new buffer of none: it is stored, and nothing terminates it.
  method EndsNever(mem: int -> char) returns (s: array<char>, result: int)
    ensures result == 1 && s.Length >= 2 && s[0] == 'a' && s[1] == mem(1)
  {
    FreshLimit(0);
    var p := Chr('a');
    RenderOne(p, ULONG_MAX_32);
    assert Render(p, ULONG_MAX_32) == ['a'];
    hide Visible, RenderAll, Render, Limit;
    ghost var end;
    s, result, end := Dsnprintf(null, 0, [p], 0, ULONG_MAX_32, mem, []);
    assert [] + ['a'] == ['a'];
    assert s[0] == s[..1][0];
  }

  lemma PowDown(base: nat, k: nat)
    requires base >= 2 && k > 0
    ensures Powers.Pow(base, k - 1) / base == if k > 1 then Powers.Pow(base, k - 2) else 0
  {
    if k > 1 {
      Quotient(Powers.Pow(base, k - 1), base, Powers.Pow(base, k - 2), 0);
    }
  }

  lemma BaseRange(base: nat)
    requires IsBase(base)
    ensures 2 <= base <= 16
  {
  }
}
