/** Shared vocabulary of the model: optional values, the error kinds the
    services raise, results, and the few string operations the services use. */
module Common {

  /** A value that may be absent (Java's `null` / `Optional.empty()`). */
  datatype Option<+T> = None | Some(value: T)

  /** The error kinds of the services. Each Java exception class becomes one kind:
      ObjectNotFoundException, SelfItemBookingException, BookingException,
      UnsupportedStateException and DuplicateEmailException. */
  datatype Error = NotFound | SelfBooking | BookingError | UnsupportedState | DuplicateEmail

  /** The outcome of a service call: a value, or the exception it throws. */
  datatype Result<+T> = Ok(value: T) | Err(error: Error)

  /** A point in time. `LocalDateTime` values are totally ordered; `isBefore` is `<`
      and `isAfter` is `>`. */
  type Time = int

  /** A set that is not empty has an element (what lets a loop pick the
      next key of a map it walks). */
  lemma NonEmptyHasElement(s: set<int>)
    requires s != {}
    ensures exists x :: x in s
  {
    if forall x :: x !in s {
      assert false;
    }
  }

  /** Moving key `k` from the keys still to visit to the keys visited keeps
      the two disjoint and their union the same. */
  lemma MoveKey(keys: set<int>, seen: set<int>, all: set<int>, k: int)
    requires keys !! seen && keys + seen == all && k in keys
    ensures (keys - {k}) !! (seen + {k}) && (keys - {k}) + (seen + {k}) == all
  {
  }

  /** `Character.isWhitespace`, which `String.isBlank` uses: the controls
      U+0009 to U+000D and U+001C to U+001F, and the Unicode space, line and
      paragraph separators except the no-break spaces U+00A0, U+2007 and U+202F. */
  predicate IsWhitespace(c: char)
  {
    (9 as char <= c <= 13 as char) || (28 as char <= c <= 32 as char) ||
    c == 0x1680 as char || (0x2000 as char <= c <= 0x2006 as char) ||
    (0x2008 as char <= c <= 0x200A as char) || c == 0x2028 as char || c == 0x2029 as char ||
    c == 0x205F as char || c == 0x3000 as char
  }

  /** `String.isBlank`: empty or only whitespace. */
  predicate IsBlank(s: string)
  {
    forall i :: 0 <= i < |s| ==> IsWhitespace(s[i])
  }

  /** The information separators U+001C to U+001F and the ideographic space
      are blank for `isBlank`; the no-break space U+00A0 is not. */
  lemma BlankSeparators()
    ensures IsBlank([28 as char, 31 as char]) && IsBlank([0x3000 as char])
    ensures !IsBlank([0xA0 as char]) && !IsBlank("a ")
  {
    var sep := [28 as char, 31 as char];
    assert IsWhitespace(sep[0]) && IsWhitespace(sep[1]);
    assert IsWhitespace([0x3000 as char][0]);
    assert !IsWhitespace([0xA0 as char][0]);
    assert !IsWhitespace("a "[0]);
  }

  /** `Character.toLowerCase`, restricted to ASCII letters. */
  function LowerChar(c: char): (r: char)
    ensures 'A' <= c <= 'Z' ==> 'a' <= r <= 'z'
    ensures !('A' <= c <= 'Z') ==> r == c
  {
    if 'A' <= c <= 'Z' then (c as int - 'A' as int + 'a' as int) as char else c
  }

  /** `String.toLowerCase`, character by character. */
  function Lower(s: string): (r: string)
    ensures |r| == |s|
    ensures forall i :: 0 <= i < |s| ==> r[i] == LowerChar(s[i])
  {
    seq(|s|, i requires 0 <= i < |s| => LowerChar(s[i]))
  }

  /** `t` occurs in `s` starting at index `i`. */
  predicate OccursAt(s: string, t: string, i: int)
  {
    0 <= i && i + |t| <= |s| && s[i..i + |t|] == t
  }

  /** `String.contains`: `t` occurs in `s` as a contiguous block. */
  predicate Contains(s: string, t: string)
  {
    exists i :: 0 <= i <= |s| - |t| && OccursAt(s, t, i)
  }

  /** Every string contains the empty string and itself. */
  lemma ContainsEmptyAndSelf(s: string)
    ensures Contains(s, "")
    ensures Contains(s, s)
  {
    assert OccursAt(s, "", 0);
    assert OccursAt(s, s, 0);
  }
}
