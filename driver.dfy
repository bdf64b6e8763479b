/** The driver's state and its sysfs handlers.

    The state is the level of each GPIO line, the mode flag `active_mode`
    and the digit `current_digit`. Writing `digit` or `mode` under the
    driver's sysfs directory runs `StoreDigit` or `StoreMode` on the written
    bytes; reading them runs `ShowDigit` or `ShowMode`.
 */
module Driver {
  import opened CString
  import opened Segments

  datatype Option<T> = None | Some(value: T)

  /** Largest `size_t`, with `size_t` taken as 32 bits. Any width gives
      the same verdicts: the wrapped value only arises for an empty write. */
  const SizeMax: nat := 0xFFFF_FFFF

  /** `count - 1` computed on `size_t`: 0 wraps round to `SizeMax`. */
  function CountMinusOne(count: nat): nat
  {
    if count == 0 then SizeMax else count - 1
  }

  /** The decimal character that `sprintf("%d")` writes for a digit. */
  function DigitChar(k: int): (c: char)
    requires IsDigit(k)
    ensures '0' <= c <= '9' && c as int - '0' as int == k
  {
    (k + '0' as int) as char
  }

  /** The literal `"k"` that `StoreDigit` compares against. */
  function DigitLiteral(k: int): string
    requires IsDigit(k)
  {
    [DigitChar(k)]
  }

  /** The `else if` chain of the digit store handler, from literal `"k"` on:
      the first digit whose literal matches `buf` over `n` characters. */
  function SelectDigitFrom(buf: seq<char>, n: nat, k: nat): (r: Option<int>)
    requires k <= 10
    ensures r.Some? ==> k <= r.value <= 9 && StrnEq(buf, DigitLiteral(r.value), n)
    ensures r.Some? ==> forall j :: k <= j < r.value ==> !StrnEq(buf, DigitLiteral(j), n)
    ensures r.None? ==> forall j :: k <= j <= 9 ==> !StrnEq(buf, DigitLiteral(j), n)
    decreases 10 - k
  {
    if k == 10 then None
    else if StrnEq(buf, DigitLiteral(k), n) then Some(k)
    else SelectDigitFrom(buf, n, k + 1)
  }

  /** The digit the store handler sets for `buf` compared over `n`
      characters, or `None` when it reports an invalid digit. */
  function SelectDigit(buf: seq<char>, n: nat): Option<int>
  {
    SelectDigitFrom(buf, n, 0)
  }

  /** What the digit chain selects, without the chain: comparing no
      characters selects 0 (the first literal tried); otherwise the buffer
      must start with a decimal character, and if a second character is
      compared it must be NUL. */
  lemma {:induction false} SelectDigitClosedForm(buf: seq<char>, n: nat)
    ensures SelectDigit(buf, n) ==
            if n == 0 then Some(0)
            else if '0' <= CharAt(buf, 0) <= '9' && (n == 1 || CharAt(buf, 1) == NUL)
            then Some(CharAt(buf, 0) as int - '0' as int)
            else None
  {
    forall j | IsDigit(j)
      ensures StrnEq(buf, DigitLiteral(j), n) <==>
              n == 0 || (CharAt(buf, 0) == DigitChar(j) && (n == 1 || CharAt(buf, 1) == NUL))
    {
      StrnEqOneChar(buf, DigitChar(j), n);
    }
    if n == 0 {
      assert StrnEq(buf, DigitLiteral(0), n);
    } else if '0' <= CharAt(buf, 0) <= '9' && (n == 1 || CharAt(buf, 1) == NUL) {
      var k := CharAt(buf, 0) as int - '0' as int;
      assert DigitChar(k) == CharAt(buf, 0);
      assert StrnEq(buf, DigitLiteral(k), n);
    }
  }

  /** `strncmp(buf, "c", count - 1) == 0` for a written buffer of `count`
      bytes: true when exactly one byte was written (nothing is compared,
      whatever the byte), and otherwise when the buffer starts with `c`
      and either holds two bytes or has NUL as its second byte. */
  lemma OneCharCommand(buf: seq<char>, c: char)
    requires c != NUL
    ensures StrnEq(buf, [c], CountMinusOne(|buf|)) <==>
            |buf| == 1 || (|buf| >= 2 && buf[0] == c && (|buf| == 2 || buf[1] == NUL))
  {
    StrnEqOneChar(buf, c, CountMinusOne(|buf|));
  }

  /** What a write of `buf` to the `digit` attribute selects: two bytes
      starting with the decimal character `d` select `d` whatever the second
      byte, and so does a longer write whose second byte is NUL; a single
      byte of any value selects 0; every other buffer is rejected. */
  lemma StoreDigitCommand(buf: seq<char>)
    ensures SelectDigit(buf, CountMinusOne(|buf|)) ==
            if |buf| == 1 then Some(0)
            else if |buf| >= 2 && '0' <= buf[0] <= '9' && (|buf| == 2 || buf[1] == NUL)
            then Some(buf[0] as int - '0' as int)
            else None
  {
    SelectDigitClosedForm(buf, CountMinusOne(|buf|));
  }

  /** The text `show_digit` writes for digit `d`: `"%d\n"`. */
  function DigitText(d: int): (s: string)
    requires IsDigit(d)
    ensures |s| == 2 && '0' <= s[0] <= '9' && s[0] as int - '0' as int == d && s[1] == '\n'
  {
    [DigitChar(d), '\n']
  }

  /** Writing back what `show_digit` printed selects the same digit. */
  lemma DigitTextRoundTrip(d: int)
    requires IsDigit(d)
    ensures SelectDigit(DigitText(d), CountMinusOne(|DigitText(d)|)) == Some(d)
  {
    StoreDigitCommand(DigitText(d));
  }

  /** The text `show_mode` writes. */
  function ModeText(active: bool): string
  {
    if active then "active\n" else "sleep\n"
  }

  /** Writing back what `show_mode` printed is rejected as an invalid mode:
      the words printed go on past the one-letter commands `a` and `s`. */
  lemma ModeTextRejected(active: bool)
    ensures !StrnEq(ModeText(active), "a", CountMinusOne(|ModeText(active)|))
    ensures !StrnEq(ModeText(active), "s", CountMinusOne(|ModeText(active)|))
  {
    OneCharCommand(ModeText(active), 'a');
    OneCharCommand(ModeText(active), 's');
  }

  /** The first letter of what `show_mode` printed, written back with a
      newline, selects the mode that was shown. */
  lemma ModeLetterRoundTrip(active: bool)
    ensures var cmd := [ModeText(active)[0], '\n'];
            StrnEq(cmd, "a", CountMinusOne(|cmd|)) == active &&
            StrnEq(cmd, "s", CountMinusOne(|cmd|)) == !active
  {
    var cmd := [ModeText(active)[0], '\n'];
    OneCharCommand(cmd, 'a');
    OneCharCommand(cmd, 's');
  }

  /** `m` with every segment line set: high when it is in `on`, low
      otherwise. Lines outside `PinSet` keep their level. */
  function WithSegments(m: map<int, bool>, on: set<int>): (r: map<int, bool>)
    ensures r.Keys == m.Keys + PinSet
    ensures forall p :: p in r ==> r[p] == if p in PinSet then p in on else m[p]
  {
    m + map p | p in PinSet :: p in on
  }

  /** The segment lines that are high in `m`. */
  function LitIn(m: map<int, bool>): set<int>
  {
    set p | p in PinSet && p in m && m[p]
  }

  /** Setting the segment lines to `on` lights exactly `on`. */
  lemma LitInWithSegments(m: map<int, bool>, on: set<int>)
    requires on <= PinSet
    ensures LitIn(WithSegments(m, on)) == on
  {
    var w := WithSegments(m, on);
    forall p | p in on ensures p in LitIn(w) {
      assert p in PinSet && w[p];
    }
  }

  /** A map that agrees with `WithSegments(m, on)` at every key is it. */
  lemma WithSegmentsExt(m: map<int, bool>, m2: map<int, bool>, on: set<int>)
    requires PinSet <= m.Keys && m2.Keys == m.Keys
    requires forall p :: p in m2 ==> m2[p] == if p in PinSet then p in on else m[p]
    ensures m2 == WithSegments(m, on)
  {
    var w := WithSegments(m, on);
    assert w.Keys == m.Keys;
    forall p | p in w ensures m2[p] == w[p] {
    }
  }

  /** The driver: GPIO line levels, the mode and the digit on display.
      `pins` may hold lines the driver does not own; it never writes them. */
  class Display {
    var pins: map<int, bool>
    var activeMode: bool
    var currentDigit: int

    /** Every segment line has a level and the digit is a decimal digit. */
    ghost predicate WellFormed()
      reads this
    {
      PinSet <= pins.Keys && IsDigit(currentDigit)
    }

    /** The segment lines that are high. */
    ghost function Lit(): set<int>
      reads this
    {
      LitIn(pins)
    }

    /** The display shows the current digit in active mode and is dark in
        sleep mode: no stale segment is lit. */
    ghost predicate Valid()
      reads this
    {
      WellFormed() && Lit() == if activeMode then Pattern(currentDigit) else {}
    }

    /** The state when module initialisation finishes: every segment line
        configured low, active mode, then digit 0 set. `others` are the
        levels of the lines the driver does not own. */
    constructor (others: map<int, bool>)
      ensures Valid() && activeMode && currentDigit == 0
      ensures pins == WithSegments(others, Pattern(0))
    {
      pins := WithSegments(others, {});
      activeMode := true;
      currentDigit := 0;
      new;
      SetDigit(0);
    }

    /** Drive every segment line low. */
    method SleepMode()
      requires PinSet <= pins.Keys
      modifies this`pins
      ensures pins == WithSegments(old(pins), {})
      ensures Lit() == {}
    {
      AllPinsExact();
      for g := 0 to |AllPins|
        invariant pins.Keys == old(pins).Keys
        invariant forall p :: p in pins ==> pins[p] == if p in AllPins[..g] then false else old(pins)[p]
      {
        pins := pins[AllPins[g] := false];
      }
      assert AllPins[..|AllPins|] == AllPins;
      WithSegmentsExt(old(pins), pins, {});
      LitInWithSegments(old(pins), {});
    }

    /** Show `digit`: reject it outside 0..9; otherwise clear every segment,
        record the digit and, in active mode only, raise its segments. */
    method SetDigit(digit: int)
      requires WellFormed()
      modifies this`pins, this`currentDigit
      ensures WellFormed()
      ensures !IsDigit(digit) ==> pins == old(pins) && currentDigit == old(currentDigit)
      ensures IsDigit(digit) ==>
                currentDigit == digit &&
                pins == WithSegments(old(pins), if activeMode then Pattern(digit) else {})
      ensures IsDigit(digit) ==> Valid()
      ensures old(Valid()) ==> Valid()
    {
      if digit < 0 || digit > 9 {
        return;
      }
      SleepMode();
      currentDigit := digit;
      if activeMode {
        // The C loop walks `numbers[digit]` until it reads a 0 entry, but no
        // entry of the table ends in 0, so it reads past the listed lines.
        // The lines the display needs are exactly the listed ones.
        var cur := PatternPins(digit);
        var i := 0;
        while i < |cur|
          invariant 0 <= i <= |cur| && currentDigit == digit
          invariant pins.Keys == old(pins).Keys
          invariant forall p :: p in pins ==> pins[p] == if p in PinSet then p in cur[..i] else old(pins)[p]
        {
          pins := pins[cur[i] := true];
          i := i + 1;
        }
        assert cur[..i] == cur;
      }
      var on := if activeMode then Pattern(digit) else {};
      WithSegmentsExt(old(pins), pins, on);
      LitInWithSegments(old(pins), on);
    }

    /** Write handler of the `digit` attribute: set the first digit whose
        literal matches `buf` over `count - 1` characters; report `count`
        bytes consumed whatever happens. */
    method StoreDigit(buf: seq<char>) returns (written: nat)
      requires Valid()
      modifies this`pins, this`currentDigit
      ensures written == |buf| && Valid()
      ensures match SelectDigit(buf, CountMinusOne(|buf|))
              case Some(d) =>
                currentDigit == d &&
                pins == WithSegments(old(pins), if activeMode then Pattern(d) else {})
              case None => pins == old(pins) && currentDigit == old(currentDigit)
    {
      match SelectDigit(buf, CountMinusOne(|buf|)) {
        case Some(d) =>
          SetDigit(d);
        case None =>
      }
      written := |buf|;
    }

    /** Write handler of the `mode` attribute: `a` switches to active mode
        and shows the current digit again, `s` switches to sleep mode and
        darkens the display, anything else changes nothing. */
    method StoreMode(buf: seq<char>) returns (written: nat)
      requires Valid()
      modifies this`pins, this`activeMode, this`currentDigit
      ensures written == |buf| && Valid() && currentDigit == old(currentDigit)
      ensures var n := CountMinusOne(|buf|);
              if StrnEq(buf, "a", n) then
                activeMode && pins == WithSegments(old(pins), Pattern(currentDigit))
              else if StrnEq(buf, "s", n) then
                !activeMode && pins == WithSegments(old(pins), {})
              else
                activeMode == old(activeMode) && pins == old(pins)
    {
      var n := CountMinusOne(|buf|);
      if StrnEq(buf, "a", n) {
        activeMode := true;
        SetDigit(currentDigit);
      } else if StrnEq(buf, "s", n) {
        activeMode := false;
        SleepMode();
      }
      written := |buf|;
    }

    /** Read handler of the `digit` attribute. */
    function ShowDigit(): (s: string)
      reads this
      requires IsDigit(currentDigit)
      ensures |s| == 2 && s[0] as int - '0' as int == currentDigit && s[1] == '\n'
    {
      DigitText(currentDigit)
    }

    /** Read handler of the `mode` attribute. */
    function ShowMode(): (s: string)
      reads this
      ensures s == if activeMode then "active\n" else "sleep\n"
    {
      ModeText(activeMode)
    }
  }
}
