/** C strings as the driver's sysfs handlers see them.

    A buffer is a `seq<char>` that the kernel follows with a NUL byte, and a
    string literal is its characters followed by its NUL terminator. Reading
    either past its end therefore yields NUL, which is what `CharAt` returns.
    `StrnEq(a, b, n)` is the test `strncmp(a, b, n) == 0` of the C library:
    compare at most `n` characters, stopping at the first difference or at
    the first NUL.
 */
module CString {

  const NUL: char := 0 as char

  /** The character at position `i`, or NUL past the end (the terminator). */
  function CharAt(s: seq<char>, i: nat): char
  {
    if i < |s| then s[i] else NUL
  }

  /** The string that starts one character further on (`s + 1` in C). */
  function Tail(s: seq<char>): seq<char>
  {
    if |s| == 0 then [] else s[1..]
  }

  lemma TailAt(s: seq<char>, i: nat)
    ensures CharAt(Tail(s), i) == CharAt(s, i + 1)
  {
  }

  /** `strncmp(a, b, n) == 0`, written the way the C library walks it. */
  predicate StrnEq(a: seq<char>, b: seq<char>, n: nat)
    decreases n
  {
    n == 0 ||
    (CharAt(a, 0) == CharAt(b, 0) &&
     (CharAt(a, 0) == NUL || StrnEq(Tail(a), Tail(b), n - 1)))
  }

  /** No NUL among the first `i` characters of `a`. */
  predicate NoNulBefore(a: seq<char>, i: nat)
  {
    forall j :: 0 <= j < i ==> CharAt(a, j) != NUL
  }

  /** Reference definition of `strncmp(a, b, n) == 0`: the two strings agree
      at every position below `n` that is not past the end of `a`. */
  ghost predicate AgreeUpTo(a: seq<char>, b: seq<char>, n: nat)
  {
    forall i: nat :: i < n && NoNulBefore(a, i) ==> CharAt(a, i) == CharAt(b, i)
  }

  /** The character-by-character walk and the reference definition agree. */
  lemma {:induction false} StrnEqAgree(a: seq<char>, b: seq<char>, n: nat)
    ensures StrnEq(a, b, n) <==> AgreeUpTo(a, b, n)
    decreases n
  {
    if n > 0 {
      StrnEqAgree(Tail(a), Tail(b), n - 1);
      if StrnEq(a, b, n) && CharAt(a, 0) != NUL {
        forall i: nat | i < n && NoNulBefore(a, i)
          ensures CharAt(a, i) == CharAt(b, i)
        {
          if i > 0 {
            forall j | 0 <= j < i - 1 ensures CharAt(Tail(a), j) != NUL {
              TailAt(a, j);
              assert CharAt(a, j + 1) != NUL;
            }
            TailAt(a, i - 1);
            TailAt(b, i - 1);
          }
        }
      }
      if AgreeUpTo(a, b, n) {
        assert NoNulBefore(a, 0);
        if CharAt(a, 0) != NUL {
          forall i: nat | i < n - 1 && NoNulBefore(Tail(a), i)
            ensures CharAt(Tail(a), i) == CharAt(Tail(b), i)
          {
            forall j | 0 <= j < i + 1 ensures CharAt(a, j) != NUL {
              if j > 0 {
                TailAt(a, j - 1);
              }
            }
            assert NoNulBefore(a, i + 1);
            TailAt(a, i);
            TailAt(b, i);
          }
        }
      }
    }
  }

  /** Comparing against a one-character literal `c`: the literal is `c`
      then NUL, so a buffer matches over `n` characters exactly when
      `n` is 0, or it starts with `c` and, if a second character is
      compared, that character is NUL. */
  lemma {:induction false} StrnEqOneChar(buf: seq<char>, c: char, n: nat)
    requires c != NUL
    ensures StrnEq(buf, [c], n) <==>
            n == 0 || (CharAt(buf, 0) == c && (n == 1 || CharAt(buf, 1) == NUL))
  {
    if n > 0 {
      TailAt(buf, 0);
      assert CharAt([c], 0) == c;
      assert Tail([c]) == [];
      if n > 1 {
        assert StrnEq(Tail(buf), [], n - 1) <==> CharAt(Tail(buf), 0) == NUL;
      }
    }
  }
}
