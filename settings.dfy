/**
 * The settings store (Ximu3Settings.c): a typed value blob with one byte
 * region per field, a parallel array of apply-pending flags, and the
 * metadata table that describes each field.
 *
 * The blob is a sequence of per-field regions, so `memcmp` and `memcpy` on a
 * field become sequence equality and region replacement. The metadata table
 * is generated per device and is a parameter here.
 */
module Settings {
  import opened CString
  import opened Optional

  datatype MetadataType = Bool | Float | Uint32 | CharArray

  /**
   * What `Set` is handed through its `const void*`: a pointer to the field's
   * `size` bytes, or a C string for a char-array field.
   */
  datatype Raw = Bytes(bytes: seq<byte>) | Text(text: seq<char>)

  /** One row of the metadata table. */
  datatype Metadata = Metadata(
    key: seq<char>,
    name: seq<char>,
    kind: MetadataType,
    size: nat,
    readOnly: bool,
    calibration: bool,
    defaultValue: Raw)

  /** The value pointer `Set` receives has the field's type. */
  predicate Accepts(m: Metadata, raw: Raw) {
    if m.kind == CharArray then raw.Text? && NoNul(raw.text)
    else raw.Bytes? && |raw.bytes| == m.size
  }

  predicate ValidMetadata(m: Metadata) {
    && NoNul(m.key)
    && NoNul(m.name)
    && (match m.kind
        case Bool => m.size == 1
        case Float => m.size == 4
        case Uint32 => m.size == 4
        case CharArray => m.size >= 1)
    && Accepts(m, m.defaultValue)
  }

  predicate ValidTable(table: seq<Metadata>) {
    forall i :: 0 <= i < |table| ==> ValidMetadata(table[i])
  }

  /** The mutable part of the store: the value blob and the apply-pending flags. */
  datatype Store = Store(values: seq<seq<byte>>, applyPendings: seq<bool>)

  /** A blob laid out as the table says: one region of the declared size per field. */
  predicate Fits(table: seq<Metadata>, values: seq<seq<byte>>) {
    |values| == |table| && forall i :: 0 <= i < |table| ==> |values[i]| == table[i].size
  }

  predicate StoreFits(table: seq<Metadata>, st: Store) {
    Fits(table, st.values) && |st.applyPendings| == |table|
  }

  /** The blank pattern of erased storage: every byte 0xFF. */
  function Blank(table: seq<Metadata>): (r: seq<seq<byte>>)
    ensures Fits(table, r)
  {
    seq(|table|, i requires 0 <= i < |table| => seq(table[i].size, _ => 0xFF))
  }

  /** `isprint` in the "C" locale. */
  predicate IsPrint(c: char) {
    ' ' <= c <= '~'
  }

  /** The byte WriteString stores for a source character. */
  function Clean(c: char): (r: byte)
    ensures r != 0
    ensures IsPrint(r as int as char)
  {
    if IsPrint(c) then c as int as byte else '?' as int as byte
  }

  /**
   * The region WriteString leaves for a source string: the first `size - 1`
   * characters cleaned, then zeros to the end.
   */
  function Sanitised(source: seq<char>, size: nat): (r: seq<byte>)
    requires size >= 1
    ensures |r| == size
  {
    seq(size, k requires 0 <= k < size => if k < size - 1 && k < |source| then Clean(source[k]) else 0)
  }

  /** The characters of a char-array region before its first zero byte, as `%s` reads them. */
  function StoredText(region: seq<byte>): (r: seq<char>)
    ensures |r| <= |region| && NoNul(r)
  {
    if region == [] || region[0] == 0 then [] else [region[0] as int as char] + StoredText(region[1..])
  }

  /** The cleaned characters of a string. */
  function CleanText(s: seq<char>): (r: seq<char>)
    ensures |r| == |s|
  {
    if s == [] then [] else [Clean(s[0]) as int as char] + CleanText(s[1..])
  }

  /**
   * strncmp(region, string, n) == 0: the two C strings agree on their first
   * `n` positions, counting each one's terminator, from position `k` on.
   */
  function StrnEqualFrom(region: seq<byte>, source: seq<char>, k: nat, n: nat): bool
    decreases n - k
  {
    if k >= n then true
    else
      var x := if k < |region| then region[k] as int else 0;
      if x != At(source, k) as int then false
      else if x == 0 then true
      else StrnEqualFrom(region, source, k + 1, n)
  }

  predicate StrnEqual(region: seq<byte>, source: seq<char>, n: nat) {
    StrnEqualFrom(region, source, 0, n)
  }

  /** Set's change detection: the raw input compared with the stored bytes. */
  predicate Unchanged(m: Metadata, stored: seq<byte>, raw: Raw)
    requires Accepts(m, raw)
  {
    if m.kind == CharArray then StrnEqual(stored, raw.text, m.size) else stored == raw.bytes
  }

  /** The bytes Set writes into a field's region. */
  function Written(m: Metadata, raw: Raw): seq<byte>
    requires ValidMetadata(m) && Accepts(m, raw)
  {
    if m.kind == CharArray then Sanitised(raw.text, m.size) else raw.bytes
  }

  /** Ximu3SettingsSet as a function of the store before the call. */
  function SetSpec(table: seq<Metadata>, st: Store, index: nat, raw: Raw, overrideReadOnly: bool): (r: Store)
    requires ValidTable(table) && StoreFits(table, st)
    requires index < |table| && Accepts(table[index], raw)
    ensures StoreFits(table, r)
  {
    var m := table[index];
    if !overrideReadOnly && m.readOnly then st
    else if Unchanged(m, st.values[index], raw) then st
    else Store(st.values[index := Written(m, raw)], st.applyPendings[index := true])
  }

  /**
   * The apply-pending invariant between two stores: no flag is ever cleared,
   * and every field whose bytes changed has its flag raised.
   */
  predicate Tracked(before: Store, after: Store)
    requires |before.values| == |after.values| == |before.applyPendings| == |after.applyPendings|
  {
    forall k :: 0 <= k < |before.values| ==>
      (before.applyPendings[k] ==> after.applyPendings[k]) &&
      (after.values[k] != before.values[k] ==> after.applyPendings[k])
  }

  lemma TrackedTransitive(a: Store, b: Store, c: Store)
    requires |a.values| == |b.values| == |c.values| == |a.applyPendings| == |b.applyPendings| == |c.applyPendings|
    requires Tracked(a, b) && Tracked(b, c)
    ensures Tracked(a, c)
  {
    forall k | 0 <= k < |a.values|
      ensures (a.applyPendings[k] ==> c.applyPendings[k]) && (c.values[k] != a.values[k] ==> c.applyPendings[k])
    {
      if c.values[k] != a.values[k] {
        if b.values[k] == a.values[k] {
          assert c.values[k] != b.values[k];
        } else {
          assert b.applyPendings[k];
        }
      }
    }
  }

  /**
   * Set keeps the apply-pending invariant and touches only the field it is
   * given: a read-only field without override, or an unchanged value, leaves
   * the whole store as it was; otherwise only that field's bytes and flag move.
   */
  lemma SetOnlyTouchesField(table: seq<Metadata>, st: Store, index: nat, raw: Raw, overrideReadOnly: bool)
    requires ValidTable(table) && StoreFits(table, st)
    requires index < |table| && Accepts(table[index], raw)
    ensures var r := SetSpec(table, st, index, raw, overrideReadOnly);
      && Tracked(st, r)
      && (table[index].readOnly && !overrideReadOnly ==> r == st)
      && (Unchanged(table[index], st.values[index], raw) ==> r == st)
      && (forall k :: 0 <= k < |table| && k != index ==>
            r.values[k] == st.values[k] && r.applyPendings[k] == st.applyPendings[k])
      && (r != st ==> r.applyPendings[index] && r.values[index] == Written(table[index], raw))
  {
  }

  /** The value a field holds, in the form Set takes it back. */
  function Current(m: Metadata, region: seq<byte>): (raw: Raw)
    requires ValidMetadata(m) && |region| == m.size
    ensures Accepts(m, raw)
  {
    if m.kind == CharArray then Text(StoredText(region)) else Bytes(region)
  }

  lemma {:induction false} StrnEqualStoredText(region: seq<byte>, k: nat, n: nat)
    requires k <= |region| && |region| == n
    requires forall j :: 0 <= j < k ==> region[j] != 0
    ensures StrnEqualFrom(region, StoredText(region), k, n)
    decreases n - k
  {
    StoredTextPrefix(region, k);
    if k < n {
      if region[k] != 0 {
        StoredTextPrefix(region, k + 1);
        StrnEqualStoredText(region, k + 1, n);
      }
    }
  }

  /** The stored text agrees with the region up to the region's first zero byte. */
  lemma {:induction false} StoredTextPrefix(region: seq<byte>, k: nat)
    requires k <= |region|
    requires forall j :: 0 <= j < k ==> region[j] != 0
    ensures |StoredText(region)| >= k
    ensures forall j :: 0 <= j < k ==> StoredText(region)[j] == region[j] as int as char
    ensures k < |region| ==> At(StoredText(region), k) as int == region[k] as int || region[k] != 0
    ensures k < |region| && region[k] == 0 ==> |StoredText(region)| == k
  {
    if k > 0 {
      StoredTextPrefix(region[1..], k - 1);
    } else if region != [] && region[0] != 0 {
      StoredTextPrefix(region[1..], 0);
    }
  }

  /** Setting a field to the value it already holds changes nothing, not even its flag. */
  lemma SetCurrentIsNoOp(table: seq<Metadata>, st: Store, index: nat, overrideReadOnly: bool)
    requires ValidTable(table) && StoreFits(table, st) && index < |table|
    ensures SetSpec(table, st, index, Current(table[index], st.values[index]), overrideReadOnly) == st
  {
    if table[index].kind == CharArray {
      StrnEqualStoredText(st.values[index], 0, table[index].size);
    }
  }

  /** Reading back what WriteString stored yields the cleaned source, clipped to `size - 1`. */
  lemma SanitisedReadBack(source: seq<char>, size: nat)
    requires size >= 1
    ensures StoredText(Sanitised(source, size)) == CleanText(source[..Min(|source|, size - 1)])
  {
    var r := Sanitised(source, size);
    var m := Min(|source|, size - 1);
    StoredTextPrefix(r, m);
    CleanTextAt(source[..m]);
  }

  lemma {:induction false} CleanTextAt(s: seq<char>)
    ensures forall j :: 0 <= j < |s| ==> CleanText(s)[j] == Clean(s[j]) as int as char
  {
    if s != [] {
      CleanTextAt(s[1..]);
    }
  }

  /**
   * The stored region compares equal to its own source exactly when the
   * source is stored verbatim: shorter than the region and fully printable.
   */
  lemma SanitisedComparesEqual(source: seq<char>, size: nat)
    requires size >= 1 && NoNul(source)
    ensures StrnEqual(Sanitised(source, size), source, size) <==>
      |source| < size && forall k :: 0 <= k < |source| ==> IsPrint(source[k])
  {
    var r := Sanitised(source, size);
    if |source| < size && forall k :: 0 <= k < |source| ==> IsPrint(source[k]) {
      StrnEqualVerbatim(r, source, 0, size);
    } else {
      StrnEqualDiffers(r, source, 0, size);
    }
  }

  lemma {:induction false} StrnEqualVerbatim(r: seq<byte>, source: seq<char>, k: nat, size: nat)
    requires size >= 1 && NoNul(source) && |source| < size && k <= |source|
    requires forall j :: 0 <= j < |source| ==> IsPrint(source[j])
    requires r == Sanitised(source, size)
    ensures StrnEqualFrom(r, source, k, size)
    decreases |source| - k
  {
    if k < |source| {
      StrnEqualVerbatim(r, source, k + 1, size);
    }
  }

  lemma {:induction false} StrnEqualDiffers(r: seq<byte>, source: seq<char>, k: nat, size: nat)
    requires size >= 1 && NoNul(source) && r == Sanitised(source, size)
    requires k <= size - 1 && k <= |source|
    requires |source| >= size || exists j :: k <= j < |source| && !IsPrint(source[j])
    ensures !StrnEqualFrom(r, source, k, size)
    decreases size - k
  {
    if k == size - 1 {
      assert At(source, k) != '\0';
    } else if k < |source| && IsPrint(source[k]) {
      StrnEqualDiffers(r, source, k + 1, size);
    }
  }

  /**
   * Set compares the raw input, not what WriteString stored: once a
   * char-array field holds a string that is not stored verbatim, setting the
   * same string again raises the apply-pending flag although the stored bytes
   * stay as they are.
   */
  lemma RepeatedSetRaisesFlag(table: seq<Metadata>, st: Store, index: nat, source: seq<char>)
    requires ValidTable(table) && StoreFits(table, st) && index < |table|
    requires table[index].kind == CharArray && NoNul(source)
    requires st.values[index] == Sanitised(source, table[index].size)
    requires |source| >= table[index].size || exists k :: 0 <= k < |source| && !IsPrint(source[k])
    ensures SetSpec(table, st, index, Text(source), true) == Store(st.values, st.applyPendings[index := true])
  {
    SanitisedComparesEqual(source, table[index].size);
  }

  /** Ximu3SettingsDefaults: Set every field to its default with read-only overridden, skipping calibration fields unless asked. */
  function DefaultsUpTo(table: seq<Metadata>, st: Store, overwriteCalibration: bool, n: nat): (r: Store)
    requires ValidTable(table) && StoreFits(table, st) && n <= |table|
    ensures StoreFits(table, r)
  {
    if n == 0 then st
    else
      var previous := DefaultsUpTo(table, st, overwriteCalibration, n - 1);
      if table[n - 1].calibration && !overwriteCalibration then previous
      else SetSpec(table, previous, n - 1, table[n - 1].defaultValue, true)
  }

  function DefaultsSpec(table: seq<Metadata>, st: Store, overwriteCalibration: bool): (r: Store)
    requires ValidTable(table) && StoreFits(table, st)
    ensures StoreFits(table, r)
  {
    DefaultsUpTo(table, st, overwriteCalibration, |table|)
  }

  /**
   * What loading defaults does to one field: a skipped calibration field is
   * left as it was; every other field ends as a lone overriding Set of its
   * default would leave it.
   */
  lemma {:induction false} DefaultsField(table: seq<Metadata>, st: Store, overwriteCalibration: bool, n: nat, k: nat)
    requires ValidTable(table) && StoreFits(table, st) && n <= |table| && k < |table|
    ensures var r := DefaultsUpTo(table, st, overwriteCalibration, n);
      var one := SetSpec(table, st, k, table[k].defaultValue, true);
      if k >= n || (table[k].calibration && !overwriteCalibration) then
        r.values[k] == st.values[k] && r.applyPendings[k] == st.applyPendings[k]
      else
        r.values[k] == one.values[k] && r.applyPendings[k] == one.applyPendings[k]
  {
    if n > 0 {
      DefaultsField(table, st, overwriteCalibration, n - 1, k);
      var previous := DefaultsUpTo(table, st, overwriteCalibration, n - 1);
      if !(table[n - 1].calibration && !overwriteCalibration) {
        SetOnlyTouchesField(table, previous, n - 1, table[n - 1].defaultValue, true);
      }
    }
  }

  /** Loading defaults keeps the apply-pending invariant. */
  lemma {:induction false} DefaultsTracked(table: seq<Metadata>, st: Store, overwriteCalibration: bool, n: nat)
    requires ValidTable(table) && StoreFits(table, st) && n <= |table|
    ensures Tracked(st, DefaultsUpTo(table, st, overwriteCalibration, n))
  {
    if n > 0 {
      DefaultsTracked(table, st, overwriteCalibration, n - 1);
      var previous := DefaultsUpTo(table, st, overwriteCalibration, n - 1);
      if !(table[n - 1].calibration && !overwriteCalibration) {
        SetOnlyTouchesField(table, previous, n - 1, table[n - 1].defaultValue, true);
        TrackedTransitive(st, previous, DefaultsUpTo(table, st, overwriteCalibration, n));
      }
    }
  }

  /** Calls the store makes to its collaborators, in order. */
  datatype Call = NvmWrite(blob: seq<seq<byte>>) | InitialiseEpilogue | DefaultsEpilogue

  /** Ximu3Settings. The optional collaborators are present or absent per store. */
  class Settings {
    const table: seq<Metadata>
    const hasNvmWrite: bool
    const hasInitialiseEpilogue: bool
    const hasDefaultsEpilogue: bool

    var values: seq<seq<byte>>
    var applyPendings: seq<bool>
    var calls: seq<Call>

    ghost predicate Valid()
      reads this
    {
      ValidTable(table) && StoreFits(table, State())
    }

    function State(): Store
      reads this
    {
      Store(values, applyPendings)
    }

    /** The statically allocated store: zeroed values, no flag raised, nothing called. */
    constructor (table: seq<Metadata>, hasNvmWrite: bool, hasInitialiseEpilogue: bool, hasDefaultsEpilogue: bool)
      requires ValidTable(table)
      ensures Valid() && calls == []
      ensures this.table == table && this.hasNvmWrite == hasNvmWrite
      ensures this.hasInitialiseEpilogue == hasInitialiseEpilogue && this.hasDefaultsEpilogue == hasDefaultsEpilogue
      ensures applyPendings == seq(|table|, _ => false)
    {
      this.table := table;
      this.hasNvmWrite := hasNvmWrite;
      this.hasInitialiseEpilogue := hasInitialiseEpilogue;
      this.hasDefaultsEpilogue := hasDefaultsEpilogue;
      values := seq(|table|, i requires 0 <= i < |table| => seq(table[i].size, _ => 0));
      applyPendings := seq(|table|, _ => false);
      calls := [];
    }

    /**
     * Ximu3SettingsInitialise. `nvm` is what the storage reader yields, or
     * None when no reader is configured.
     */
    method Initialise(nvm: Option<seq<seq<byte>>>)
      requires Valid()
      requires nvm.Some? ==> Fits(table, nvm.value)
      modifies this
      ensures Valid()
      ensures var loaded := if nvm.Some? then nvm.value else Blank(table);
        var read := Store(loaded, old(applyPendings));
        && State() == (if loaded == Blank(table) then DefaultsSpec(table, read, true) else read)
        && calls == old(calls)
             + (if loaded == Blank(table) && hasDefaultsEpilogue then [DefaultsEpilogue] else [])
             + (if hasInitialiseEpilogue then [InitialiseEpilogue] else [])
    {
      // Read values from NVM
      var blank := Blank(table);
      values := blank;
      if nvm.Some? {
        values := nvm.value;
      }

      // Load defaults if NVM blank
      if values == blank {
        Defaults(true);
      }

      // Epilogue
      if hasInitialiseEpilogue {
        calls := calls + [InitialiseEpilogue];
      }
    }

    /** Ximu3SettingsDefaults. */
    method Defaults(overwriteCalibration: bool)
      requires Valid()
      modifies this
      ensures Valid()
      ensures State() == DefaultsSpec(table, old(State()), overwriteCalibration)
      ensures calls == old(calls) + (if hasDefaultsEpilogue then [DefaultsEpilogue] else [])
    {
      // Loads defaults
      for index := 0 to |table|
        invariant Valid() && calls == old(calls)
        invariant State() == DefaultsUpTo(table, old(State()), overwriteCalibration, index)
      {
        var metadata := table[index];
        if metadata.calibration && !overwriteCalibration {
          continue;
        }
        Set(index, metadata.defaultValue, true);
      }

      // Epilogue
      if hasDefaultsEpilogue {
        calls := calls + [DefaultsEpilogue];
      }
    }

    /** Ximu3SettingsGet: a read-only view of the value blob. */
    method Get() returns (v: seq<seq<byte>>)
      requires Valid()
      ensures Fits(table, v) && v == values
    {
      v := values;
    }

    /** Ximu3SettingsSet. */
    method Set(index: nat, value: Raw, overrideReadOnly: bool)
      requires Valid() && index < |table| && Accepts(table[index], value)
      modifies this
      ensures Valid() && calls == old(calls)
      ensures State() == SetSpec(table, old(State()), index, value, overrideReadOnly)
    {
      // Get metadata
      var metadata := table[index];

      // Do nothing if read-only
      if !overrideReadOnly && metadata.readOnly {
        return;
      }

      // Do nothing if value unchanged
      if metadata.kind == CharArray {
        if StrnEqual(values[index], value.text, metadata.size) {
          return;
        }
      } else if values[index] == value.bytes {
        return;
      }

      // Set apply pending flag
      applyPendings := applyPendings[index := true];

      // Set value
      match metadata.kind {
        case Bool =>
          values := values[index := value.bytes];
        case Float =>
          values := values[index := value.bytes];
        case Uint32 =>
          values := values[index := value.bytes];
        case CharArray =>
          var region := WriteString(metadata.size, value.text);
          values := values[index := region];
      }
    }

    /** Ximu3SettingsSave: hands the whole blob to the storage writer, if there is one. */
    method Save()
      requires Valid()
      modifies this
      ensures Valid() && State() == old(State())
      ensures calls == old(calls) + (if hasNvmWrite then [NvmWrite(values)] else [])
    {
      if hasNvmWrite {
        calls := calls + [NvmWrite(values)];
      }
    }
  }

  /**
   * WriteString: fills a region of `destinationSize` bytes from a C string,
   * replacing unprintable characters with '?', padding with zeros and forcing
   * a terminator into the last byte.
   */
  method WriteString(destinationSize: nat, source: seq<char>) returns (destination: seq<byte>)
    requires destinationSize >= 1 && NoNul(source)
    ensures destination == Sanitised(source, destinationSize)
    ensures destination[destinationSize - 1] == 0
    ensures forall k :: 0 <= k < destinationSize ==> destination[k] == 0 || IsPrint(destination[k] as int as char)
  {
    destination := [];
    var s := 0;
    for index := 0 to destinationSize
      invariant |destination| == index && s == Min(index, |source|)
      invariant forall k :: 0 <= k < index ==> destination[k] == (if k < |source| then Clean(source[k]) else 0)
    {
      if At(source, s) == '\0' {
        destination := destination + [0];
        continue;
      }
      if !IsPrint(source[s]) {
        destination := destination + ['?' as int as byte];
      } else {
        destination := destination + [source[s] as int as byte];
      }
      s := s + 1;
    }
    destination := destination[destinationSize - 1 := 0];
  }
}
