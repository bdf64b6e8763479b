# seven7segment: a Dafny model of a seven-segment display driver

The driver shows one decimal digit on a seven-segment display whose eight
segment lines are wired to GPIO lines 4, 5, 6, 12, 13, 16, 17 and 18. Its
state is the level of each line, a mode flag (active or sleep) and the
current digit. User space drives it through two sysfs attributes:

- writing `digit` selects a digit; the display shows it in active mode;
- writing `mode` with `a` switches to active mode and shows the current
  digit again, with `s` switches to sleep mode and darkens every segment;
- reading `digit` and `mode` reports the current digit and the mode.

The model has three modules:

- `CString` (`cstring.dfy`): the driver's use of `strncmp`. A written
  buffer is followed by a NUL byte and a literal by its terminator, so
  reading past the end yields NUL. `StrnEq` walks the strings the way the C
  library does; `AgreeUpTo` is an independent definition, and
  `StrnEqAgree` proves the two equal.
- `Segments` (`segments.dfy`): the eight lines and the digit table.
  `PatternPins(d)` is the table entry for digit `d` in the order the driver
  raises its lines, and `Pattern(d)` is the set of those lines.
- `Driver` (`driver.dfy`): the class `Display`, whose fields `pins`,
  `activeMode` and `currentDigit` are the driver's state, and the four sysfs
  handlers. `pins` may also hold lines the driver does not own, so "touches
  no other line" is a real statement. `Valid()` is the invariant every
  handler keeps: the digit is in 0..9, and the set of lit segment lines is
  `Pattern(currentDigit)` in active mode and empty in sleep mode. So no
  stale segment stays lit, as long as the handlers run one at a time (see
  "## Left out").

Behaviour of the code as written, proved rather than corrected:

- A write of exactly one byte compares zero characters (`count - 1` is 0),
  so every one-byte write to `digit` selects 0, and every one-byte write
  to `mode` selects active mode (`StoreDigitCommand`, `OneCharCommand`).
- A write of zero bytes makes `count - 1` wrap round on `size_t`. The
  buffer then holds only its NUL, so it matches no literal.
- A two-byte write to `digit` whose first byte is the decimal character
  `d` selects `d`, whatever the second byte: `"12"` selects 1. So does a
  longer write whose second byte is NUL. Every other write of two or more
  bytes is rejected (`StoreDigitCommand`).
- On a two-byte write to `mode` only the first byte decides: `"ab"` selects
  active mode. A longer write is accepted only when its second byte is NUL.
  A one-byte `s` selects active mode, like every one-byte write
  (`OneCharCommand`).
- So the words `active` and `sleep` that reading `mode` returns are
  rejected when written back (`ModeTextRejected`), while their first letter
  followed by a newline selects the mode shown (`ModeLetterRoundTrip`).

The model departs from the source text in two places. The model uses what
the display needs, not what the C code does:

- The array for digit 0 is declared with room for two entries but lists
  six. The model uses the six listed lines.
- The loop that raises a digit's lines walks its array until it finds a 0
  entry, but no array ends in 0, so the C loop reads past the array. The
  model raises exactly the listed lines (`Driver.Display.SetDigit`).

## Model

| member | source | states |
|---|---|---|
| `Segments.AllPinsExact` | seven7segment.c:20-30 | `all_pins` lists the eight segment lines, each exactly once |
| `Segments.PatternPins` | seven7segment.c:31-43 | each digit's table entry lists only segment lines, none twice |
| `Segments.Pattern` | seven7segment.c:31-43 | a digit's lit set holds only segment lines, one per table entry |
| `Segments.PatternsDistinct` | seven7segment.c:31-43 | no two digits light the same set of lines |
| `CString.StrnEqAgree` | seven7segment.c:57-66 | the character-by-character `strncmp(a, b, n) == 0` holds exactly when `a` and `b` agree at every position below `n` up to the end of `a` |
| `CString.StrnEqOneChar` | seven7segment.c:57-66 | against a one-character literal `c`, a match over `n` characters holds iff `n` is 0, or the buffer starts with `c` and (`n` is 1 or its second character is NUL) |
| `Driver.OneCharCommand` | seven7segment.c:81-82 | for a write of `count` bytes, `strncmp(buf, "c", count-1) == 0` iff `count` is 1, or `buf` starts with `c` and has two bytes or a NUL second byte |
| `Driver.SelectDigitFrom` | seven7segment.c:57-69 | the `else if` chain selects the first digit whose literal matches, and none when no literal matches |
| `Driver.SelectDigitClosedForm` | seven7segment.c:57-69 | the chain selects 0 when no character is compared, otherwise the buffer's leading decimal character when the next compared character is NUL, otherwise nothing |
| `Driver.StoreDigitCommand` | seven7segment.c:56-71 | a two-byte write whose first byte is the decimal character `d` selects `d`, whatever the second byte; so does a longer write whose second byte is NUL; any one-byte write selects 0; every other write is rejected |
| `Driver.DigitText` | seven7segment.c:53 | the digit is printed as its decimal character followed by a newline |
| `Driver.DigitTextRoundTrip` | seven7segment.c:52-66 | writing back the text read from `digit` selects the same digit |
| `Driver.ModeTextRejected` | seven7segment.c:73-85 | writing back the text read from `mode` matches neither `a` nor `s` |
| `Driver.ModeLetterRoundTrip` | seven7segment.c:73-82 | writing back the first letter of the text read from `mode`, with a newline, selects the mode that was shown |
| `Driver.Display.constructor` | seven7segment.c:163-167 | after initialisation the mode is active, the digit is 0, exactly the lines of digit 0 are high, and other lines are untouched |
| `Driver.Display.SleepMode` | seven7segment.c:106-111 | every segment line is low afterwards, every other line keeps its level, and the mode and digit do not change |
| `Driver.Display.SetDigit` | seven7segment.c:113-133 | a digit outside 0..9 changes nothing; otherwise the digit is recorded whatever the mode, and the segment lines are set to the digit's pattern in active mode or all low in sleep mode, leaving other lines alone and keeping the invariant |
| `Driver.Display.StoreDigit` | seven7segment.c:56-71 | returns `count`; sets the digit the chain selects, changes nothing when it selects none, and keeps the invariant |
| `Driver.Display.StoreMode` | seven7segment.c:80-87 | returns `count`; on `a` the mode becomes active and the current digit's pattern is shown, on `s` the mode becomes sleep and every segment is low, otherwise nothing changes; the digit never changes and the invariant is kept |
| `Driver.Display.ShowDigit` | seven7segment.c:52-54 | the text read from `digit` is the current digit's decimal character and a newline |
| `Driver.Display.ShowMode` | seven7segment.c:73-78 | the text read from `mode` is `active` in active mode and `sleep` in sleep mode, with a newline |

## Left out

- Module initialisation and exit (seven7segment.c:140-184): creating the
  kobject and the sysfs group, their error returns, requesting and freeing
  the GPIO lines, and the malformed `pins_name` initialiser are kernel
  registration plumbing. The constructor models only the state at the end
  of initialisation: lines configured low, then `set_digit(0)` in active mode.
  Exit calls `sleep_mode`, which is modelled.
- The attribute and attribute-group tables (seven7segment.c:89-101): kernel
  interface tables with no logic.
- `printk`: logging only. The model records that the logging paths change
  no state.
- `sprintf` into the kernel's page buffer: `ShowDigit` and `ShowMode` return
  the text. The byte count and the buffer are not modelled.
- `gpio_set_value`: modelled as a write of one entry of `pins`. Its effect on
  the hardware is not modelled.
- The `kthread` include is unused. The only trace of a character device
  is the unused constant `MY_MAX_MINORS` (seven7segment.c:17); the file has
  no code for one, so it is not part of this model.
- Concurrency: each handler is modelled as one atomic step, run one at a
  time. The source takes no lock around `active_mode`, `current_digit` or
  the GPIO writes (seven7segment.c:45-46, 81-82, 109, 121, 127), and the
  `digit` and `mode` attributes are separate entry points
  (seven7segment.c:89-90). So `Valid()` is proved only for calls that do
  not overlap. For example, a `digit` write that has passed
  `if (active_mode)` can raise segments after an overlapping `mode` write
  of `s` has darkened the display.
- Byte values are modelled as `char`. The width of `size_t` is a modelling
  choice: 32 bits is taken, though the kernel may be 64-bit. The width only
  affects the zero-byte write, and that write is rejected whatever the
  width.
- The read past the end of the digit arrays in `set_digit`'s loop is
  undefined behaviour in C. The model does not reproduce it, as explained
  above.
