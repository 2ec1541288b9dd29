/**
 * Tolerant key comparison (Key.c): two keys match when they agree after
 * dropping every non-alphanumeric character and folding ASCII letters to
 * lower case, so that `hardware_version`, `hardware-version` and
 * `Hardware Version` all name the same key. Character classes are those of
 * the "C" locale: only ASCII letters and digits are alphanumeric.
 */
module Key {
  import opened CString

  predicate IsAlpha(c: char) {
    'a' <= c <= 'z' || 'A' <= c <= 'Z'
  }

  predicate IsAlnum(c: char) {
    IsAlpha(c) || '0' <= c <= '9'
  }

  /** Lower-cases a letter; every other character is returned as it is. */
  function ToLower(c: char): (r: char)
    ensures !IsAlpha(c) ==> r == c
    ensures IsAlpha(c) ==> 'a' <= r <= 'z' && (r == c || r as int == c as int + 32)
    ensures IsAlnum(r) <==> IsAlnum(c)
  {
    if !IsAlpha(c) then c else if 'A' <= c <= 'Z' then (c as int + 32) as char else c
  }

  /** The key as the comparison sees it: its alphanumeric characters, lower-cased. */
  function Normalise(s: seq<char>): (r: seq<char>)
    ensures |r| <= |s|
  {
    if s == [] then []
    else if IsAlnum(s[0]) then [ToLower(s[0])] + Normalise(s[1..])
    else Normalise(s[1..])
  }

  /** Two keys match when their normalised forms are equal. */
  predicate KeysMatch(a: seq<char>, b: seq<char>) {
    Normalise(a) == Normalise(b)
  }

  lemma {:induction false} NormaliseAppend(x: seq<char>, y: seq<char>)
    ensures Normalise(x + y) == Normalise(x) + Normalise(y)
  {
    if x == [] {
      assert x + y == y;
    } else {
      assert (x + y)[0] == x[0];
      assert (x + y)[1..] == x[1..] + y;
      NormaliseAppend(x[1..], y);
    }
  }

  /** Normalising never yields an upper-case letter or a separator. */
  lemma {:induction false} NormaliseIsFolded(s: seq<char>)
    ensures forall c :: c in Normalise(s) ==> IsAlnum(c) && !('A' <= c <= 'Z')
  {
    if s != [] {
      NormaliseIsFolded(s[1..]);
    }
  }

  /** A run of separators normalises to nothing. */
  lemma {:induction false} NormaliseSeparators(sep: seq<char>)
    requires forall k :: 0 <= k < |sep| ==> !IsAlnum(sep[k])
    ensures Normalise(sep) == []
  {
    if sep != [] {
      NormaliseSeparators(sep[1..]);
    }
  }

  /** Inserting separators anywhere in a key never changes whether it matches. */
  lemma SeparatorsIgnored(x: seq<char>, sep: seq<char>, y: seq<char>)
    requires forall k :: 0 <= k < |sep| ==> !IsAlnum(sep[k])
    ensures Normalise(x + sep + y) == Normalise(x + y)
  {
    NormaliseAppend(x + sep, y);
    NormaliseAppend(x, sep);
    NormaliseSeparators(sep);
    NormaliseAppend(x, y);
  }

  /** Changing the case of one letter never changes whether a key matches. */
  lemma CaseIgnored(x: seq<char>, c: char, y: seq<char>)
    requires IsAlpha(c)
    ensures Normalise(x + [ToLower(c)] + y) == Normalise(x + [c] + y)
  {
    NormaliseAppend(x + [ToLower(c)], y);
    NormaliseAppend(x, [ToLower(c)]);
    NormaliseAppend(x + [c], y);
    NormaliseAppend(x, [c]);
    assert Normalise([c]) == [ToLower(c)] + Normalise([]);
    assert Normalise([ToLower(c)]) == [ToLower(ToLower(c))] + Normalise([]);
  }

  lemma NormaliseHead(s: seq<char>, i: nat)
    requires i < |s|
    ensures Normalise(s[i..]) == (if IsAlnum(s[i]) then [ToLower(s[i])] else []) + Normalise(s[i + 1..])
  {
    assert s[i..][1..] == s[i + 1..];
  }

  lemma ConsCancel(c: char, x: seq<char>, y: seq<char>)
    ensures [c] + x == [c] + y <==> x == y
  {
    if [c] + x == [c] + y {
      assert ([c] + x)[1..] == x && ([c] + y)[1..] == y;
    }
  }

  lemma Regroup(p: seq<char>, c: char, x: seq<char>)
    ensures p + ([c] + x) == (p + [c]) + x
  {
  }

  /** A prefix with nothing left to match is a prefix of every continuation. */
  lemma Completes(p: seq<char>, x: seq<char>, y: seq<char>)
    requires x == []
    ensures p + x == p && p + x <= p + y && p + y == (p + x) + y
  {
  }

  /** Two continuations of a common prefix that differ in their first character are not prefixes of one another. */
  lemma Diverges(p: seq<char>, x: seq<char>, y: seq<char>)
    requires x != [] && (y == [] || y[0] != x[0])
    ensures !(p + x <= p + y)
  {
    if |p + x| <= |p + y| {
      assert (p + x)[|p|] != (p + y)[|p|];
    }
  }

  /** A key already in normal form normalises to itself. */
  lemma {:induction false} NormaliseFolded(s: seq<char>)
    requires forall k :: 0 <= k < |s| ==> 'a' <= s[k] <= 'z' || '0' <= s[k] <= '9'
    ensures Normalise(s) == s
  {
    if s != [] {
      NormaliseFolded(s[1..]);
    }
  }

  /** An underscore between words does not matter. */
  lemma UnderscoreSpelling()
    ensures KeysMatch("hardware_version", "hardwareversion")
  {
    assert "hardware_version" == "hardware" + "_" + "version";
    assert "hardwareversion" == "hardware" + "version";
    SeparatorsIgnored("hardware", "_", "version");
  }

  /** Neither the separator between words nor the case of their letters matters. */
  lemma CapitalisedSpelling()
    ensures KeysMatch("hardware_version", "Hardware Version")
  {
    assert ToLower('H') == 'h' && ToLower('V') == 'v';
    assert "Hardware Version" == ['H'] + "ardware" + " " + ['V'] + "ersion";
    assert "hardware_version" == ['h'] + "ardware" + "_" + ['v'] + "ersion";
    TitleCaseIgnored('H', "ardware", " ", 'V', "ersion", "_");
  }

  /** Two capitalised words match the same words in lower case, whatever separates them. */
  lemma TitleCaseIgnored(c: char, x: seq<char>, sep: seq<char>, d: char, y: seq<char>, sep': seq<char>)
    requires IsAlpha(c) && IsAlpha(d)
    requires forall k :: 0 <= k < |sep| ==> !IsAlnum(sep[k])
    requires forall k :: 0 <= k < |sep'| ==> !IsAlnum(sep'[k])
    ensures Normalise([c] + x + sep + [d] + y) == Normalise([ToLower(c)] + x + sep' + [ToLower(d)] + y)
  {
    NormaliseFive([c], x, sep, [d], y);
    NormaliseFive([ToLower(c)], x, sep', [ToLower(d)], y);
    NormaliseSeparators(sep);
    NormaliseSeparators(sep');
    assert Normalise([c]) == [ToLower(c)] + Normalise([]);
    assert Normalise([ToLower(c)]) == [ToLower(ToLower(c))] + Normalise([]);
    assert Normalise([d]) == [ToLower(d)] + Normalise([]);
    assert Normalise([ToLower(d)]) == [ToLower(ToLower(d))] + Normalise([]);
  }

  lemma NormaliseFive(a: seq<char>, b: seq<char>, c: seq<char>, d: seq<char>, e: seq<char>)
    ensures Normalise(a + b + c + d + e) == Normalise(a) + Normalise(b) + Normalise(c) + Normalise(d) + Normalise(e)
  {
    NormaliseAppend(a + b + c + d, e);
    NormaliseAppend(a + b + c, d);
    NormaliseAppend(a + b, c);
    NormaliseAppend(a, b);
  }

  /** Keys that differ in an alphanumeric character do not match. */
  lemma DistinctKeys()
    ensures !KeysMatch("foo", "bar")
  {
    assert Normalise("foo")[0] == 'f';
    assert Normalise("bar")[0] == 'b';
  }

  /**
   * SkipNonAlphanumeric: advances a cursor past separators to the next
   * alphanumeric character or the terminator.
   */
  method SkipNonAlphanumeric(s: seq<char>, i: nat) returns (j: nat)
    requires NoNul(s) && i <= |s|
    ensures i <= j <= |s|
    ensures j == |s| || IsAlnum(s[j])
    ensures forall k :: i <= k < j ==> !IsAlnum(s[k])
    ensures Normalise(s[i..]) == Normalise(s[j..])
  {
    j := i;
    while At(s, j) != '\0' && !IsAlnum(At(s, j))
      invariant i <= j <= |s|
      invariant forall k :: i <= k < j ==> !IsAlnum(s[k])
      invariant Normalise(s[i..]) == Normalise(s[j..])
      decreases |s| - j
    {
      NormaliseHead(s, j);
      j := j + 1;
    }
  }

  /**
   * KeyMatches: walks both keys in step, skipping separators on each side
   * independently, until the folded characters differ or both keys end.
   */
  method KeyMatches(a: seq<char>, b: seq<char>) returns (r: bool)
    requires NoNul(a) && NoNul(b)
    ensures r <==> KeysMatch(a, b)
  {
    var i, j := 0, 0;
    while true
      invariant i <= |a| && j <= |b|
      invariant KeysMatch(a, b) <==> Normalise(a[i..]) == Normalise(b[j..])
      decreases |a| - i
    {
      i := SkipNonAlphanumeric(a, i);
      j := SkipNonAlphanumeric(b, j);
      if ToLower(At(a, i)) != ToLower(At(b, j)) {
        if i < |a| && j < |b| {
          NormaliseHead(a, i);
          NormaliseHead(b, j);
          assert Normalise(a[i..])[0] != Normalise(b[j..])[0];
        } else if i < |a| {
          NormaliseHead(a, i);
        } else {
          NormaliseHead(b, j);
        }
        return false;
      }
      if At(a, i) == '\0' && At(b, j) == '\0' {
        return true;
      }
      NormaliseHead(a, i);
      NormaliseHead(b, j);
      ConsCancel(ToLower(a[i]), Normalise(a[i + 1..]), Normalise(b[j + 1..]));
      i := i + 1;
      j := j + 1;
    }
  }

  /**
   * KeyStartsWith: whether key `a`, read from `cursor`, starts with key `b`
   * in the tolerant sense. On success the returned cursor is past the match
   * and past any separators that follow it.
   */
  method KeyStartsWith(a: seq<char>, cursor: nat, b: seq<char>) returns (r: bool, next: nat)
    requires NoNul(a) && NoNul(b) && cursor <= |a|
    ensures r <==> Normalise(b) <= Normalise(a[cursor..])
    ensures Normalise(b) == [] ==> r
    ensures cursor <= next <= |a|
    ensures r ==> next == |a| || IsAlnum(a[next])
    ensures r ==> Normalise(a[cursor..]) == Normalise(b) + Normalise(a[next..])
  {
    var j := 0;
    next := cursor;
    ghost var p: seq<char> := [];
    while true
      invariant cursor <= next <= |a| && j <= |b|
      invariant Normalise(a[cursor..]) == p + Normalise(a[next..])
      invariant Normalise(b) == p + Normalise(b[j..])
      decreases |b| - j
    {
      next := SkipNonAlphanumeric(a, next);
      j := SkipNonAlphanumeric(b, j);
      if At(b, j) == '\0' {
        assert b[j..] == [];
        Completes(p, Normalise(b[j..]), Normalise(a[next..]));
        return true, next;
      }
      NormaliseHead(b, j);
      if At(a, next) == '\0' {
        assert a[next..] == [];
        Diverges(p, Normalise(b[j..]), Normalise(a[next..]));
        return false, next;
      }
      NormaliseHead(a, next);
      if ToLower(a[next]) != ToLower(b[j]) {
        Diverges(p, Normalise(b[j..]), Normalise(a[next..]));
        return false, next;
      }
      Regroup(p, ToLower(a[next]), Normalise(a[next + 1..]));
      Regroup(p, ToLower(b[j]), Normalise(b[j + 1..]));
      p := p + [ToLower(a[next])];
      next := next + 1;
      j := j + 1;
    }
  }
}
