/**
 * C strings and bounded string formatting, as the command layer uses them.
 *
 * A C string is held without its terminator: the characters before the first
 * '\0'. Reading one position past the end yields the terminator. A C `char`
 * is modelled by a Dafny `char` whose code point is the byte's value.
 */
module CString {

  /** A byte of storage, as `uint8_t` holds it. */
  newtype byte = b: int | 0 <= b < 256

  /** The character a C pointer to position `i` of `s` reads: '\0' past the end. */
  function At(s: seq<char>, i: nat): char {
    if i < |s| then s[i] else '\0'
  }

  /** `s` can be the contents of a C string: it holds no terminator. */
  predicate NoNul(s: seq<char>) {
    forall i :: 0 <= i < |s| ==> s[i] != '\0'
  }

  /** The C string stored in a character buffer: everything before the first '\0'. */
  function Terminated(s: seq<char>): (r: seq<char>)
    ensures r <= s && NoNul(r)
    ensures |r| < |s| ==> s[|r|] == '\0'
  {
    if s == [] || s[0] == '\0' then [] else [s[0]] + Terminated(s[1..])
  }

  lemma {:induction false} TerminatedOfNoNul(s: seq<char>)
    requires NoNul(s)
    ensures Terminated(s) == s
  {
    if s != [] {
      TerminatedOfNoNul(s[1..]);
    }
  }

  /**
   * What `snprintf(destination, size, "%s", text)` leaves in the destination:
   * the longest prefix of `text` that fits beside the terminator. With size
   * zero snprintf writes nothing; the result is then empty, and no buffer of
   * the model has size zero.
   */
  function Clipped(text: seq<char>, size: nat): (r: seq<char>)
    ensures r <= text
    ensures size == 0 ==> r == []
    ensures size > 0 ==> |r| <= size - 1
    ensures size > 0 && |text| < size ==> r == text
    ensures size > 0 && |text| >= size ==> |r| == size - 1
  {
    if size == 0 then [] else if |text| < size then text else text[..size - 1]
  }

  /**
   * Appending to a clipped buffer and clipping again is the same as clipping
   * once: growing a bounded buffer piece by piece loses nothing that would
   * have fitted.
   */
  lemma ClippedAppend(a: seq<char>, b: seq<char>, size: nat)
    requires size > 0
    ensures Clipped(Clipped(a, size) + b, size) == Clipped(a + b, size)
  {
    if |a| >= size {
      assert Clipped(a, size) == a[..size - 1];
      assert (a[..size - 1] + b)[..size - 1] == a[..size - 1];
      assert (a + b)[..size - 1] == a[..size - 1];
    }
  }

  function Min(a: nat, b: nat): nat {
    if a < b then a else b
  }

  /** A buffer whose first `|s|` characters are `s`, followed by a terminator, holds the C string `s`. */
  lemma {:induction false} TerminatedHolds(buffer: seq<char>, s: seq<char>)
    requires NoNul(s) && |s| < |buffer| && buffer[..|s|] == s && buffer[|s|] == '\0'
    ensures Terminated(buffer) == s
  {
    if s != [] {
      assert buffer[1..][..|s| - 1] == s[1..];
      TerminatedHolds(buffer[1..], s[1..]);
    }
  }

  /** Reading a C string stops at the first terminator, wherever the buffer is cut after it. */
  lemma {:induction false} TerminatedCut(buffer: seq<char>, j: nat)
    requires j < |buffer| && buffer[j] == '\0'
    ensures Terminated(buffer) == Terminated(buffer[..j])
  {
    if j > 0 && buffer[0] != '\0' {
      assert buffer[1..][..j - 1] == buffer[..j][1..];
      TerminatedCut(buffer[1..], j - 1);
    }
  }

  /**
   * `snprintf(&destination[start], destination.Length - start, "%s", text)`:
   * copies as much of `text` as fits before the end of the buffer, then a
   * terminator; the characters before `start` and after the terminator are
   * untouched.
   */
  method WriteAt(destination: array<char>, start: nat, text: seq<char>)
    requires start < destination.Length
    modifies destination
    ensures var m := Min(|text|, destination.Length - start - 1);
      && destination[..start] == old(destination[..start])
      && destination[start..start + m] == text[..m]
      && destination[start + m] == '\0'
      && (forall k :: start + m < k < destination.Length ==> destination[k] == old(destination[k]))
  {
    var m := Min(|text|, destination.Length - start - 1);
    forall k | start <= k < start + m {
      destination[k] := text[k - start];
    }
    destination[start + m] := '\0';
  }

  /**
   * What WriteAt leaves, read back as a C string: the clipped concatenation
   * of the C string already held before `start` and the text.
   */
  lemma WriteAtHolds(before: seq<char>, after: seq<char>, start: nat, text: seq<char>)
    requires start < |before| == |after| && NoNul(before[..start]) && NoNul(text)
    requires var m := Min(|text|, |after| - start - 1);
      && after[..start] == before[..start]
      && after[start..start + m] == text[..m]
      && after[start + m] == '\0'
    ensures Terminated(after) == Clipped(before[..start] + text, |after|)
  {
    var m := Min(|text|, |after| - start - 1);
    var s := before[..start] + text[..m];
    assert after[..|s|] == after[..start] + after[start..start + m];
    assert Clipped(before[..start] + text, |after|) == s by {
      if |before[..start] + text| >= |after| {
        assert (before[..start] + text)[..|after| - 1] == s;
      } else {
        assert text[..m] == text;
      }
    }
    TerminatedHolds(after, s);
  }
}
