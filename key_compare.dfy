/**
 * KeyCompare.c: the index-based twin of Key.KeyMatches that the settings
 * codec and the command bridge use to look keys up.
 */
module KeyCompare {
  import opened CString
  import opened Key
  import opened Optional

  /**
   * Walks both keys with one index each. Separators are skipped on each side
   * independently, letters are folded to lower case, and the walk stops at
   * the first difference or when both keys end together.
   */
  method KeyCompare(keyA: seq<char>, keyB: seq<char>) returns (r: bool)
    requires NoNul(keyA) && NoNul(keyB)
    ensures r <==> KeysMatch(keyA, keyB)
  {
    var keyAIndex, keyBIndex := 0, 0;
    while true
      invariant keyAIndex <= |keyA| && keyBIndex <= |keyB|
      invariant KeysMatch(keyA, keyB) <==> Normalise(keyA[keyAIndex..]) == Normalise(keyB[keyBIndex..])
      decreases |keyA| - keyAIndex
    {
      // Skip non-alphanumeric characters
      ghost var startA, startB := keyAIndex, keyBIndex;
      while !IsAlnum(At(keyA, keyAIndex)) && At(keyA, keyAIndex) != '\0'
        invariant startA <= keyAIndex <= |keyA|
        invariant Normalise(keyA[startA..]) == Normalise(keyA[keyAIndex..])
        decreases |keyA| - keyAIndex
      {
        NormaliseHead(keyA, keyAIndex);
        keyAIndex := keyAIndex + 1;
      }
      while !IsAlnum(At(keyB, keyBIndex)) && At(keyB, keyBIndex) != '\0'
        invariant startB <= keyBIndex <= |keyB|
        invariant Normalise(keyB[startB..]) == Normalise(keyB[keyBIndex..])
        decreases |keyB| - keyBIndex
      {
        NormaliseHead(keyB, keyBIndex);
        keyBIndex := keyBIndex + 1;
      }

      // Convert to lower case
      var characterA := ToLower(At(keyA, keyAIndex));
      var characterB := ToLower(At(keyB, keyBIndex));

      // Match failed if characters different
      if characterA != characterB {
        if keyAIndex < |keyA| && keyBIndex < |keyB| {
          NormaliseHead(keyA, keyAIndex);
          NormaliseHead(keyB, keyBIndex);
          assert Normalise(keyA[keyAIndex..])[0] != Normalise(keyB[keyBIndex..])[0];
        } else if keyAIndex < |keyA| {
          NormaliseHead(keyA, keyAIndex);
        } else {
          NormaliseHead(keyB, keyBIndex);
        }
        return false;
      }

      // Match if reached end of both strings
      if characterA == '\0' && characterB == '\0' {
        return true;
      }

      // Increment indexes
      NormaliseHead(keyA, keyAIndex);
      NormaliseHead(keyB, keyBIndex);
      ConsCancel(characterA, Normalise(keyA[keyAIndex + 1..]), Normalise(keyB[keyBIndex + 1..]));
      keyAIndex := keyAIndex + 1;
      keyBIndex := keyBIndex + 1;
    }
  }

  /**
   * The linear first-match scan the codec and the bridge run over a table of
   * keys: the position of the first key that matches `key`, if any.
   */
  function FirstMatch(keys: seq<seq<char>>, key: seq<char>): (r: Option<nat>)
    ensures r.Some? ==> r.value < |keys| && KeysMatch(key, keys[r.value])
    ensures r.Some? ==> forall j :: 0 <= j < r.value ==> !KeysMatch(key, keys[j])
    ensures r.None? ==> forall j :: 0 <= j < |keys| ==> !KeysMatch(key, keys[j])
  {
    FirstMatchFrom(keys, key, 0)
  }

  function FirstMatchFrom(keys: seq<seq<char>>, key: seq<char>, i: nat): (r: Option<nat>)
    requires i <= |keys|
    ensures r.Some? ==> i <= r.value < |keys| && KeysMatch(key, keys[r.value])
    ensures r.Some? ==> forall j :: i <= j < r.value ==> !KeysMatch(key, keys[j])
    ensures r.None? ==> forall j :: i <= j < |keys| ==> !KeysMatch(key, keys[j])
    decreases |keys| - i
  {
    if i == |keys| then None
    else if KeysMatch(key, keys[i]) then Some(i)
    else FirstMatchFrom(keys, key, i + 1)
  }

  /** A key that matches at `i` and at no earlier position is found at `i`. */
  lemma FirstMatchAt(keys: seq<seq<char>>, key: seq<char>, i: nat)
    requires i < |keys| && KeysMatch(key, keys[i])
    requires forall j :: 0 <= j < i ==> !KeysMatch(key, keys[j])
    ensures FirstMatch(keys, key) == Some(i)
  {
  }
}
