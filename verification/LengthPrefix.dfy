/** Messages behind a ten-digit length. */
module LengthPrefix {
  import opened Wrappers
  import opened Sequences

  const SIZE_LENGTH := 10
  const SIZE_LIMIT := 100_0000_0000

  // ----- decimal numbers -----

  predicate IsDigit(c: char) { '0' <= c <= '9' }

  function DigitValue(c: char): nat
    requires IsDigit(c)
  {
    (c as int) - ('0' as int)
  }

  function DigitChar(d: nat): (c: char)
    requires d < 10
    ensures IsDigit(c) && DigitValue(c) == d
  {
    (('0' as int) + d) as char
  }

  predicate Digits(s: string) { forall i | 0 <= i < |s| :: IsDigit(s[i]) }

  /** `std::to_string` of an unsigned number. */
  function ToString(n: nat): (s: string)
    ensures s != [] && Digits(s)
  {
    if n < 10 then [DigitChar(n)] else ToString(n / 10) + [DigitChar(n % 10)]
  }

  function Number(s: string): nat
    requires Digits(s)
  {
    if s == [] then 0 else 10 * Number(s[..|s| - 1]) + DigitValue(s[|s| - 1])
  }

  function Zeros(n: nat): (s: string)
    ensures Digits(s)
  {
    seq(n, _ => '0')
  }

  /** The size of a message, padded to ten digits; `None` is the exception raised when it has more digits than that. */
  function GetSizeString(size: nat): Option<string> {
    var s := ToString(size);
    if |s| > SIZE_LENGTH then None else Some(Zeros(SIZE_LENGTH - |s|) + s)
  }

  function StripZeros(s: string): string {
    if s != [] && s[0] == '0' then StripZeros(s[1..]) else s
  }

  function LeadingDigits(s: string): (r: string)
    ensures Digits(r)
  {
    if s != [] && IsDigit(s[0]) then [s[0]] + LeadingDigits(s[1..]) else []
  }

  predicate IsSpace(c: char) { c in " \t\n\r" || c == 11 as char || c == 12 as char }

  function SkipSpace(s: string): string {
    if s != [] && IsSpace(s[0]) then SkipSpace(s[1..]) else s
  }

  /** `strtol` to base ten, on a text too short to overflow: white space, a sign, and the digits that follow. */
  function ParseLong(s: string): int {
    var t := SkipSpace(s);
    if t != [] && t[0] == '-' then -(Number(LeadingDigits(t[1..])) as int)
    else Number(LeadingDigits(if t != [] && t[0] == '+' then t[1..] else t))
  }

  /** `rangeError` says that `errno` is already `ERANGE`; ten characters never make it so. The result is negative after
      a minus sign; the program returns it as an unsigned 64-bit number. */
  function ParseMessageSize(s: string, rangeError: bool): int {
    var t := StripZeros(s);
    if t == [] || rangeError then 0 else ParseLong(t)
  }

  lemma {:induction false} ToStringIsDecimal(n: nat)
    ensures Number(ToString(n)) == n
  {
    if n < 10 {
      assert Number([DigitChar(n)]) == 10 * Number([DigitChar(n)][..0]) + n;
    } else {
      ToStringIsDecimal(n / 10);
      var s := ToString(n);
      assert s[..|s| - 1] == ToString(n / 10);
    }
  }

  lemma {:induction false} ToStringLength(n: nat, k: nat)
    requires k >= 1
    ensures |ToString(n)| <= k <==> n < Power10(k)
  {
    if n >= 10 {
      if k == 1 {
        assert |ToString(n / 10)| >= 1 && Power10(1) == 10 * Power10(0);
      } else {
        ToStringLength(n / 10, k - 1);
      }
    } else {
      TenAtLeast(k);
    }
  }

  function Power10(k: nat): nat { if k == 0 then 1 else 10 * Power10(k - 1) }

  lemma {:induction false} TenAtLeast(k: nat)
    requires k >= 1
    ensures Power10(k) >= 10
  {
    if k > 1 { TenAtLeast(k - 1); } else { assert Power10(0) == 1; }
  }

  lemma {:induction false} LimitIsPower()
    ensures Power10(SIZE_LENGTH) == SIZE_LIMIT
  {
    assert Power10(5) == 10 * (10 * (10 * (10 * (10 * Power10(0))))) == 10_0000;
    assert Power10(10) == 10 * (10 * (10 * (10 * (10 * Power10(5)))));
  }

  /** Padding works exactly for sizes below ten to the tenth, and gives ten digits. */
  lemma {:induction false} SizeStringExists(size: nat)
    ensures GetSizeString(size).Some? <==> size < SIZE_LIMIT
    ensures size < SIZE_LIMIT ==> |GetSizeString(size).value| == SIZE_LENGTH
  {
    ToStringLength(size, SIZE_LENGTH);
    LimitIsPower();
  }

  lemma {:induction false} StripPadding(n: nat, s: string)
    ensures StripZeros(Zeros(n) + s) == StripZeros(s)
  {
    if n == 0 {
      assert Zeros(0) + s == s;
    } else {
      assert (Zeros(n) + s)[1..] == Zeros(n - 1) + s;
      StripPadding(n - 1, s);
    }
  }

  lemma {:induction false} NumberCons(c: char, s: string)
    requires c == '0' && Digits(s)
    ensures Digits([c] + s) && Number([c] + s) == Number(s)
  {
    if s == [] {
      assert ([c] + s)[..0] == [];
    } else {
      NumberCons(c, s[..|s| - 1]);
      assert ([c] + s)[..|s|] == [c] + s[..|s| - 1];
    }
  }

  lemma {:induction false} StrippedNumber(s: string)
    requires Digits(s)
    ensures Digits(StripZeros(s)) && Number(StripZeros(s)) == Number(s)
  {
    if s != [] && s[0] == '0' {
      StrippedNumber(s[1..]);
      NumberCons(s[0], s[1..]);
      assert [s[0]] + s[1..] == s;
    }
  }

  lemma {:induction false} AllLeading(s: string)
    requires Digits(s)
    ensures LeadingDigits(s) == s
  {
    if s != [] {
      AllLeading(s[1..]);
      assert [s[0]] + s[1..] == s;
    }
  }

  lemma {:induction false} ParsePadded(n: nat, s: string, rangeError: bool)
    requires Digits(s)
    ensures ParseMessageSize(Zeros(n) + s, rangeError) == if rangeError then 0 else Number(s)
  {
    StripPadding(n, s);
    StrippedNumber(s);
    var t := StripZeros(s);
    AllLeading(t);
    if t != [] {
      assert IsDigit(t[0]) && t[0] != '-' && t[0] != '+';
      assert SkipSpace(t) == t;
      assert ParseLong(t) == Number(LeadingDigits(t)) == Number(t);
    }
    assert ParseMessageSize(Zeros(n) + s, rangeError) == if t == [] || rangeError then 0 else ParseLong(t);
  }

  /** Parsing inverts padded printing, unless a stale range error makes every size zero. */
  lemma {:induction false} SizeRoundTrip(size: nat, rangeError: bool)
    requires size < SIZE_LIMIT
    ensures GetSizeString(size).Some?
    ensures ParseMessageSize(GetSizeString(size).value, rangeError) == if rangeError then 0 else size
  {
    SizeStringExists(size);
    var s := ToString(size);
    ToStringIsDecimal(size);
    ParsePadded(SIZE_LENGTH - |s|, s, rangeError);
  }

  /** White space as `isspace` has it: a blank, or a character from tab to carriage return. */
  predicate AllSpace(s: string) { forall i | 0 <= i < |s| :: s[i] == ' ' || 9 <= s[i] as int <= 13 }

  lemma {:induction false} SkipsSpace(space: string, rest: string)
    requires AllSpace(space) && (rest == [] || !IsSpace(rest[0]))
    ensures SkipSpace(space + rest) == rest
  {
    if space == [] {
      assert space + rest == rest;
    } else {
      assert (space + rest)[1..] == space[1..] + rest;
      assert IsSpace(space[0]);
      SkipsSpace(space[1..], rest);
    }
  }

  lemma {:induction false} TakesDigits(digits: string, tail: string)
    requires Digits(digits) && (tail == [] || !IsDigit(tail[0]))
    ensures LeadingDigits(digits + tail) == digits
  {
    if digits == [] {
      assert digits + tail == tail;
    } else {
      assert (digits + tail)[1..] == digits[1..] + tail;
      TakesDigits(digits[1..], tail);
      assert digits == [digits[0]] + digits[1..];
    }
  }

  /** What a size reads as that is zeros, white space, a sign and digits, and then no digit: the number the digits make,
      negative after a minus sign. */
  lemma {:induction false} SizeWithSign(n: nat, space: string, sign: char, digits: string, tail: string)
    requires AllSpace(space) && (sign == '+' || sign == '-')
    requires Digits(digits) && (tail == [] || !('0' <= tail[0] <= '9'))
    ensures ParseMessageSize(Zeros(n) + (space + ([sign] + (digits + tail))), false)
         == if sign == '-' then -(Number(digits) as int) else Number(digits)
  {
    var signed := [sign] + (digits + tail);
    var t := space + signed;
    StripPadding(n, t);
    assert t[0] == (if space != [] then space[0] else sign) != '0';
    assert StripZeros(t) == t;
    SkipsSpace(space, signed);
    TakesDigits(digits, tail);
    assert signed[0] == sign && signed[1..] == digits + tail;
    assert SkipSpace(t) == signed && ParseMessageSize(Zeros(n) + t, false) == ParseLong(t);
    assert LeadingDigits(signed[1..]) == digits;
  }

  /** The same without a sign, where the digits do not go on with the zeros in front. */
  lemma {:induction false} SizeWithoutSign(n: nat, space: string, digits: string, tail: string)
    requires AllSpace(space) && Digits(digits) && digits != [] && (tail == [] || !('0' <= tail[0] <= '9'))
    requires space != [] || digits[0] != '0'
    ensures ParseMessageSize(Zeros(n) + (space + (digits + tail)), false) == Number(digits)
  {
    var t := space + (digits + tail);
    StripPadding(n, t);
    assert t[0] == if space != [] then space[0] else digits[0];
    assert (digits + tail)[0] == digits[0] && IsDigit(digits[0]);
    SkipsSpace(space, digits + tail);
    TakesDigits(digits, tail);
  }

  // ----- messages -----

  /** `None` where no size string exists. */
  function WrapMessage(message: string): Option<string> {
    match GetSizeString(|message|)
    case None => None
    case Some(s) => Some(s + message)
  }

  /** A part of the buffer, by offset and size; nothing checks that it ends inside the buffer. */
  datatype Part = Part(offset: nat, size: nat)

  const SIZE_MODULUS := 0x1_0000_0000_0000_0000

  /** The part behind a size. */
  function PartOf(offset: nat, size: int): Part { Part(offset + SIZE_LENGTH, size % SIZE_MODULUS) }

  /** Where the next size begins: adding a negative size, taken modulo 2^64, goes back; from before the start of the
      buffer it wraps around to behind its end. */
  function NextOffset(data: string, offset: nat, size: int): nat {
    if offset + SIZE_LENGTH + size >= 0 then offset + SIZE_LENGTH + size else |data|
  }

  function SizeAt(data: string, offset: nat, rangeError: bool): int
    requires offset + SIZE_LENGTH <= |data|
  {
    ParseMessageSize(data[offset..offset + SIZE_LENGTH], rangeError)
  }

  /** The parts; or the program reads past the end of the buffer for a size that is cut there; or its loop does not
      end. */
  datatype Result = Ended(parts: seq<Part>) | ReadsPast | GoesRound

  function WithPart(p: Part, r: Result): Result { if r.Ended? then Ended([p] + r.parts) else r }

  /** What the loop makes of the buffer from `offset` on; `unmet` are the offsets it has not met. */
  function Split(data: string, offset: nat, rangeError: bool, unmet: set<nat>): Result
    decreases unmet
  {
    if offset >= |data| then Ended([])
    else if offset !in unmet then GoesRound
    else if offset + SIZE_LENGTH > |data| then ReadsPast
    else
      var size := SizeAt(data, offset, rangeError);
      WithPart(PartOf(offset, size), Split(data, NextOffset(data, offset, size), rangeError, unmet - {offset}))
  }

  function Below(n: nat): (offsets: set<nat>)
    ensures forall o: nat :: o in offsets <==> o < n
  {
    if n == 0 then {} else Below(n - 1) + {n - 1}
  }

  function Offsets(data: string): set<nat> { Below(|data|) }

  /** `found` and the parts from `offset` on are all the parts. */
  ghost predicate Splitting(data: string, rangeError: bool, found: seq<Part>, offset: nat, unmet: set<nat>) {
    Split(data, 0, rangeError, Offsets(data)) ==
      match Split(data, offset, rangeError, unmet)
      case Ended(parts) => Ended(found + parts)
      case r => r
  }

  lemma {:induction false} SplittingStarts(data: string, rangeError: bool)
    ensures Splitting(data, rangeError, [], 0, Offsets(data))
  {
    match Split(data, 0, rangeError, Offsets(data))
    case Ended(parts) => assert [] + parts == parts;
    case _ =>
  }

  lemma {:induction false} SplittingGoesOn(data: string, rangeError: bool, found: seq<Part>, offset: nat,
                                           unmet: set<nat>)
    requires offset in unmet && offset + SIZE_LENGTH <= |data| && Splitting(data, rangeError, found, offset, unmet)
    ensures var size := SizeAt(data, offset, rangeError);
            Splitting(data, rangeError, found + [PartOf(offset, size)], NextOffset(data, offset, size),
                      unmet - {offset})
  {
    var size := SizeAt(data, offset, rangeError);
    match Split(data, NextOffset(data, offset, size), rangeError, unmet - {offset})
    case Ended(parts) => AppendThree(found, [PartOf(offset, size)], parts);
    case _ =>
  }

  /** The program does not keep `unmet`: it goes round for ever where this model stops at an offset it has met before,
      see `NeverEnds`. */
  method SplitMessage(data: string, rangeError: bool) returns (r: Result)
    ensures r == Split(data, 0, rangeError, Offsets(data))
  {
    var found: seq<Part>, lastOffset: nat, unmet := [], 0, Offsets(data);
    SplittingStarts(data, rangeError);
    while lastOffset < |data|
      invariant Splitting(data, rangeError, found, lastOffset, unmet)
      decreases unmet
    {
      if lastOffset !in unmet { return GoesRound; }
      if lastOffset + SIZE_LENGTH > |data| { return ReadsPast; }
      SplittingGoesOn(data, rangeError, found, lastOffset, unmet);
      var size := SizeAt(data, lastOffset, rangeError);
      found := found + [PartOf(lastOffset, size)];
      lastOffset, unmet := NextOffset(data, lastOffset, size), unmet - {lastOffset};
    }
    assert found + [] == found;
    r := Ended(found);
  }

  // ----- when the loop does not end -----

  /** The loop makes another pass at `offset`. */
  predicate Passes(data: string, offset: nat) { offset + SIZE_LENGTH <= |data| }

  /** The offset after `n` more passes, if there are so many. */
  function OffsetAfter(data: string, offset: nat, rangeError: bool, n: nat): Option<nat>
    decreases n
  {
    if n == 0 then Some(offset)
    else if !Passes(data, offset) then None
    else OffsetAfter(data, NextOffset(data, offset, SizeAt(data, offset, rangeError)), rangeError, n - 1)
  }

  /** From `offset` on the loop makes any number of passes. */
  ghost predicate NeverEnds(data: string, offset: nat, rangeError: bool) {
    forall n: nat :: OffsetAfter(data, offset, rangeError, n).Some?
  }

  lemma {:induction false} PassesCompose(data: string, offset: nat, rangeError: bool, m: nat, n: nat)
    requires OffsetAfter(data, offset, rangeError, m).Some?
    ensures OffsetAfter(data, offset, rangeError, m + n)
         == OffsetAfter(data, OffsetAfter(data, offset, rangeError, m).value, rangeError, n)
    decreases m
  {
    if m > 0 {
      PassesCompose(data, NextOffset(data, offset, SizeAt(data, offset, rangeError)), rangeError, m - 1, n);
    }
  }

  /** Coming back to an offset means coming back again and again. */
  lemma {:induction false} Cycles(data: string, offset: nat, rangeError: bool, m: nat, n: nat)
    requires m > 0 && OffsetAfter(data, offset, rangeError, m) == Some(offset)
    ensures OffsetAfter(data, offset, rangeError, n).Some?
    decreases n
  {
    if n >= m {
      PassesCompose(data, offset, rangeError, m, n - m);
      Cycles(data, offset, rangeError, m, n - m);
    } else {
      FewerPasses(data, offset, rangeError, n, m);
    }
  }

  lemma {:induction false} FewerPasses(data: string, offset: nat, rangeError: bool, n: nat, m: nat)
    requires n <= m && OffsetAfter(data, offset, rangeError, m).Some?
    ensures OffsetAfter(data, offset, rangeError, n).Some?
    decreases n
  {
    if n > 0 {
      FewerPasses(data, NextOffset(data, offset, SizeAt(data, offset, rangeError)), rangeError, n - 1, m - 1);
    }
  }

  /** Every offset already met leads to the one at hand. */
  ghost predicate Met(data: string, offset: nat, rangeError: bool, unmet: set<nat>) {
    forall o: nat | o < |data| && o !in unmet :: LeadsTo(data, o, rangeError, offset)
  }

  ghost predicate LeadsTo(data: string, from: nat, rangeError: bool, to: nat) {
    exists m: nat :: m > 0 && OffsetAfter(data, from, rangeError, m) == Some(to)
  }

  lemma {:induction false} MetGoesOn(data: string, offset: nat, rangeError: bool, unmet: set<nat>)
    requires Passes(data, offset) && Met(data, offset, rangeError, unmet)
    ensures Met(data, NextOffset(data, offset, SizeAt(data, offset, rangeError)), rangeError, unmet - {offset})
  {
    var next := NextOffset(data, offset, SizeAt(data, offset, rangeError));
    assert OffsetAfter(data, offset, rangeError, 1) == Some(next) by {
      assert OffsetAfter(data, next, rangeError, 0) == Some(next);
    }
    forall o: nat | o < |data| && o !in unmet - {offset} ensures LeadsTo(data, o, rangeError, next) {
      if o != offset {
        assert LeadsTo(data, o, rangeError, offset);
        var m: nat :| m > 0 && OffsetAfter(data, o, rangeError, m) == Some(offset);
        PassesCompose(data, o, rangeError, m, 1);
        assert OffsetAfter(data, o, rangeError, m + 1) == Some(next);
      }
    }
  }

  lemma {:induction false} RoundFrom(data: string, offset: nat, rangeError: bool, unmet: set<nat>)
    requires Met(data, offset, rangeError, unmet)
    ensures Split(data, offset, rangeError, unmet).GoesRound? <==> NeverEnds(data, offset, rangeError)
    decreases unmet
  {
    if offset < |data| && offset !in unmet {
      var m: nat :| m > 0 && OffsetAfter(data, offset, rangeError, m) == Some(offset);
      forall n: nat ensures OffsetAfter(data, offset, rangeError, n).Some? { Cycles(data, offset, rangeError, m, n); }
    } else if !Passes(data, offset) {
      assert OffsetAfter(data, offset, rangeError, 1).None?;
    } else {
      var next := NextOffset(data, offset, SizeAt(data, offset, rangeError));
      MetGoesOn(data, offset, rangeError, unmet);
      RoundFrom(data, next, rangeError, unmet - {offset});
      EndlessNext(data, offset, rangeError);
    }
  }

  lemma {:induction false} EndlessNext(data: string, offset: nat, rangeError: bool)
    requires Passes(data, offset)
    ensures NeverEnds(data, offset, rangeError)
       <==> NeverEnds(data, NextOffset(data, offset, SizeAt(data, offset, rangeError)), rangeError)
  {
    var next := NextOffset(data, offset, SizeAt(data, offset, rangeError));
    if NeverEnds(data, offset, rangeError) {
      forall n: nat ensures OffsetAfter(data, next, rangeError, n).Some? {
        assert OffsetAfter(data, offset, rangeError, n + 1).Some?;
      }
    }
    if NeverEnds(data, next, rangeError) {
      forall n: nat ensures OffsetAfter(data, offset, rangeError, n).Some? {
        if n > 0 { assert OffsetAfter(data, next, rangeError, n - 1).Some?; }
      }
    }
  }

  /** The loop goes round exactly if it makes any number of passes. */
  lemma {:induction false} GoesRoundMeans(data: string, rangeError: bool)
    ensures Split(data, 0, rangeError, Offsets(data)).GoesRound? <==> NeverEnds(data, 0, rangeError)
  {
    RoundFrom(data, 0, rangeError, Offsets(data));
  }

  // ----- round trip -----

  predicate AllSmall(messages: seq<string>) { forall i | 0 <= i < |messages| :: |messages[i]| < SIZE_LIMIT }

  function WrapAll(messages: seq<string>): string
    requires AllSmall(messages)
  {
    if messages == [] then [] else
      SizeStringExists(|messages[0]|);
      WrapMessage(messages[0]).value + WrapAll(messages[1..])
  }

  predicate IsPart(data: string, p: Part, message: string) {
    p.offset + p.size <= |data| && data[p.offset..p.offset + p.size] == message
  }

  /** The parts are the messages. */
  ghost predicate Parts(data: string, parts: seq<Part>, messages: seq<string>) {
    |parts| == |messages| && forall i | 0 <= i < |parts| :: IsPart(data, parts[i], messages[i])
  }

  lemma {:induction false} PartsCons(data: string, p: Part, parts: seq<Part>, message: string, messages: seq<string>)
    ensures Parts(data, [p] + parts, [message] + messages) <==> IsPart(data, p, message) && Parts(data, parts, messages)
  {
    var ps, ms := [p] + parts, [message] + messages;
    if Parts(data, ps, ms) {
      assert IsPart(data, ps[0], ms[0]);
      forall i | 0 <= i < |parts| ensures IsPart(data, parts[i], messages[i]) {
        assert IsPart(data, ps[i + 1], ms[i + 1]);
      }
    }
  }

  /** The first message of what is left of the buffer. */
  lemma {:induction false} FirstPart(before: string, message: string, after: string, rangeError: bool)
    requires |message| < SIZE_LIMIT
    ensures WrapMessage(message).Some?
    ensures var wrapped := WrapMessage(message).value;
            var data := before + (wrapped + after);
            var size := if rangeError then 0 else |message|;
            && |wrapped| == SIZE_LENGTH + |message|
            && |before| + SIZE_LENGTH <= |data|
            && SizeAt(data, |before|, rangeError) == size
            && (IsPart(data, Part(|before| + SIZE_LENGTH, size), message) <==> size == |message|)
  {
    SizeStringExists(|message|);
    SizeRoundTrip(|message|, rangeError);
    var header := GetSizeString(|message|).value;
    var data := before + (header + message + after);
    assert data[|before|..|before| + SIZE_LENGTH] == header;
    assert data[|before| + SIZE_LENGTH..|before| + SIZE_LENGTH + |message|] == message;
  }

  /** Splitting at `offset` yields the messages. */
  ghost predicate Yields(data: string, offset: nat, rangeError: bool, unmet: set<nat>, messages: seq<string>) {
    var r := Split(data, offset, rangeError, unmet);
    r.Ended? && Parts(data, r.parts, messages)
  }

  lemma {:induction false} YieldsCons(before: string, message: string, after: string, rangeError: bool, unmet: set<nat>,
                                      messages: seq<string>)
    requires |message| < SIZE_LIMIT && |before| in unmet
    ensures WrapMessage(message).Some?
    ensures var wrapped := WrapMessage(message).value;
            var data := before + (wrapped + after);
            Yields(data, |before|, rangeError, unmet, [message] + messages)
            <==> (rangeError ==> message == [])
                 && Yields(data, |before + wrapped|, rangeError, unmet - {|before|}, messages)
  {
    FirstPart(before, message, after, rangeError);
    var data := before + (WrapMessage(message).value + after);
    var size := if rangeError then 0 else |message|;
    assert PartOf(|before|, size) == Part(|before| + SIZE_LENGTH, size);
    var next := Split(data, |before| + SIZE_LENGTH + size, rangeError, unmet - {|before|});
    if next.Ended? { PartsCons(data, Part(|before| + SIZE_LENGTH, size), next.parts, message, messages); }
  }

  predicate AllEmpty(messages: seq<string>) { forall i | 0 <= i < |messages| :: messages[i] == [] }

  /** The offsets from here on have not been met. */
  ghost predicate UnmetFrom(data: string, offset: nat, unmet: set<nat>) {
    forall o: nat | offset <= o < |data| :: o in unmet
  }

  lemma {:induction false} SplitFrom(before: string, messages: seq<string>, rangeError: bool, unmet: set<nat>)
    requires AllSmall(messages) && UnmetFrom(before + WrapAll(messages), |before|, unmet)
    ensures Yields(before + WrapAll(messages), |before|, rangeError, unmet, messages) <==>
            !rangeError || AllEmpty(messages)
    decreases messages
  {
    if messages == [] {
      assert before + [] == before;
    } else {
      var message, rest := messages[0], messages[1..];
      SizeStringExists(|message|);
      AppendThree(before, WrapMessage(message).value, WrapAll(rest));
      YieldsCons(before, message, WrapAll(rest), rangeError, unmet, rest);
      assert messages == [message] + rest;
      SplitFrom(before + WrapMessage(message).value, rest, rangeError, unmet - {|before|});
    }
  }

  /** Splitting the concatenation of wrapped messages gives the messages back exactly if no stale range error is set or
      all messages are empty. */
  lemma {:induction false} SplitWrapped(messages: seq<string>, rangeError: bool)
    requires AllSmall(messages)
    ensures Yields(WrapAll(messages), 0, rangeError, Offsets(WrapAll(messages)), messages) <==>
            !rangeError || AllEmpty(messages)
  {
    assert [] + WrapAll(messages) == WrapAll(messages);
    SplitFrom([], messages, rangeError, Offsets(WrapAll(messages)));
  }

  /** The number of 64 bits that a size is taken for. */
  function Unsigned(size: int): int { if size < 0 then 0x1_0000_0000_0000_0000 + size else size }

  /** One pass: the part lies behind the size; a negative size counts as a number of 64 bits, and the loop goes on that
      much further back, or ends if that is before the start of the buffer. */
  lemma {:induction false} PassMeans(data: string, offset: nat, rangeError: bool, unmet: set<nat>, size: int)
    requires offset in unmet && offset < |data| && offset + 10 <= |data|
    requires size == ParseMessageSize(data[offset..offset + 10], rangeError)
    requires -0x1_0000_0000_0000_0000 < size < 0x1_0000_0000_0000_0000
    ensures var next := offset + 10 + size;
            Split(data, offset, rangeError, unmet) ==
              if next < 0 then Ended([Part(offset + 10, Unsigned(size))])
              else WithPart(Part(offset + 10, Unsigned(size)), Split(data, next, rangeError, unmet - {offset}))
  {
    assert PartOf(offset, size) == Part(offset + 10, Unsigned(size));
    assert Split(data, |data|, rangeError, unmet - {offset}) == Ended([]);
  }

  /** Minus ten goes round: the loop comes back to where it is. */
  lemma {:induction false} MinusTenGoesRound(data: string)
    requires |data| >= SIZE_LENGTH && SizeAt(data, 0, false) == -SIZE_LENGTH
    ensures Split(data, 0, false, Offsets(data)).GoesRound?
  {
    assert NextOffset(data, 0, -SIZE_LENGTH) == 0;
    assert Split(data, 0, false, Offsets(data) - {0}).GoesRound?;
  }
}
