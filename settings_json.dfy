/**
 * The settings JSON codec (Ximu3SettingsJson.c): finds a setting by key,
 * renders values and objects into bounded buffers, and parses key/value
 * pairs and whole objects into the store.
 *
 * Uint32 fields hold their value little-endian (the byte order of the
 * target, which is not part of this model). Float text and the conversion of
 * a parsed float to `uint32_t` come from collaborators.
 */
module SettingsJson {
  import opened CString
  import opened Optional
  import opened Key
  import opened KeyCompare
  import opened Settings
  import opened Json
  import opened Definitions

  /**
   * The floating-point collaborators: `%f` formatting of a float's four bytes,
   * and the `(uint32_t)` conversion of a parsed float.
   */
  datatype FloatSupport = FloatSupport(text: seq<byte> -> seq<char>, toUint32: seq<byte> -> nat)

  ghost predicate ValidFloatSupport(floats: FloatSupport) {
    && (forall bits: seq<byte> :: NoNul(floats.text(bits)))
    && (forall bits: seq<byte> :: floats.toUint32(bits) < 0x1_0000_0000)
  }

  // ---------------------------------------------------------------------------
  // Looking a setting up by key

  function Keys(table: seq<Metadata>): (keys: seq<seq<char>>)
    ensures |keys| == |table| && forall i :: 0 <= i < |table| ==> keys[i] == table[i].key
  {
    seq(|table|, i requires 0 <= i < |table| => table[i].key)
  }

  /** The setting a key names: the first whose key matches. */
  function FindIndex(table: seq<Metadata>, key: seq<char>): Option<nat> {
    FirstMatch(Keys(table), key)
  }

  /**
   * Ximu3SettingsJsonGetIndex: `index` is what the caller's out-parameter
   * held before the call; `indexOut` is what it holds after.
   */
  method GetIndex(settings: Settings, index: nat, key: seq<char>) returns (result: int, indexOut: nat)
    requires settings.Valid() && NoNul(key)
    ensures result == 0 || result == 1
    ensures result == 0 <==> exists i :: 0 <= i < |settings.table| && KeysMatch(key, settings.table[i].key)
    ensures result == 0 ==> indexOut < |settings.table| && KeysMatch(key, settings.table[indexOut].key)
    ensures result == 0 ==> forall j :: 0 <= j < indexOut ==> !KeysMatch(key, settings.table[j].key)
    ensures result == 0 ==> FindIndex(settings.table, key) == Some(indexOut)
    ensures result == 1 ==> indexOut == index && FindIndex(settings.table, key) == None
  {
    var table := settings.table;
    indexOut := index;
    for i := 0 to |table|
      invariant forall j :: 0 <= j < i ==> !KeysMatch(key, table[j].key)
    {
      var matches := KeyCompare.KeyCompare(key, table[i].key);
      if matches {
        indexOut := i;
        return 0, indexOut;
      }
    }
    return 1, indexOut;
  }

  /** Ximu3SettingsJsonGetKey: the setting's key, clipped to the destination. */
  function GetKey(table: seq<Metadata>, destinationSize: nat, index: nat): (r: seq<char>)
    requires index < |table|
    ensures r <= table[index].key
    ensures destinationSize > |table[index].key| ==> r == table[index].key
    ensures destinationSize > 0 ==> |r| < destinationSize
    ensures 0 < destinationSize <= |table[index].key| ==> |r| == destinationSize - 1
  {
    Clipped(table[index].key, destinationSize)
  }

  // ---------------------------------------------------------------------------
  // Rendering values

  function Digit(d: nat): (c: char)
    requires d < 10
    ensures '0' <= c <= '9' && c as int - '0' as int == d
  {
    ('0' as int + d) as char
  }

  /** `%u`: the decimal digits of `n`, without leading zeros. */
  function Decimal(n: nat): (r: seq<char>)
    ensures |r| >= 1
    ensures forall k :: 0 <= k < |r| ==> '0' <= r[k] <= '9'
    ensures r[0] == '0' <==> n == 0
    ensures |r| == 1 || r[0] != '0'
  {
    if n < 10 then [Digit(n)] else Decimal(n / 10) + [Digit(n % 10)]
  }

  /** The number a string of decimal digits denotes. */
  function DecimalValue(s: seq<char>): nat
    requires forall k :: 0 <= k < |s| ==> '0' <= s[k] <= '9'
  {
    if s == [] then 0 else DecimalValue(s[..|s| - 1]) * 10 + (s[|s| - 1] as int - '0' as int)
  }

  /** Reading back the decimal text of a number yields the number. */
  lemma {:induction false} DecimalRoundTrip(n: nat)
    ensures DecimalValue(Decimal(n)) == n
  {
    if n >= 10 {
      var s := Decimal(n);
      assert s[..|s| - 1] == Decimal(n / 10);
      DecimalRoundTrip(n / 10);
    }
  }

  /** The little-endian value of a four-byte region. */
  function Uint32Of(region: seq<byte>): (n: nat)
    requires |region| == 4
    ensures n < 0x1_0000_0000
  {
    region[0] as nat + 0x100 * region[1] as nat + 0x1_0000 * region[2] as nat + 0x100_0000 * region[3] as nat
  }

  /** The four little-endian bytes of a `uint32_t`. */
  function Uint32Bytes(n: nat): (r: seq<byte>)
    requires n < 0x1_0000_0000
    ensures |r| == 4
  {
    [(n % 0x100) as byte, (n / 0x100 % 0x100) as byte, (n / 0x1_0000 % 0x100) as byte, (n / 0x100_0000) as byte]
  }

  lemma Uint32RoundTrip(n: nat)
    requires n < 0x1_0000_0000
    ensures Uint32Of(Uint32Bytes(n)) == n
  {
  }

  /** The text GetValue renders for a field, before clipping to the destination. */
  function ValueText(floats: FloatSupport, m: Metadata, region: seq<byte>): (r: seq<char>)
    requires ValidFloatSupport(floats) && ValidMetadata(m) && |region| == m.size
    ensures NoNul(r)
  {
    match m.kind
    case Bool => if region[0] != 0 then "true" else "false"
    case CharArray => "\"" + StoredText(region) + "\""
    case Float => floats.text(region)
    case Uint32 => Decimal(Uint32Of(region))
  }

  /** Ximu3SettingsJsonGetValue. */
  function GetValue(floats: FloatSupport, table: seq<Metadata>, values: seq<seq<byte>>, destinationSize: nat, index: nat): (r: seq<char>)
    requires ValidFloatSupport(floats) && ValidTable(table) && Fits(table, values) && index < |table|
    ensures NoNul(r) && r <= ValueText(floats, table[index], values[index])
    ensures destinationSize > 0 ==> |r| < destinationSize
    ensures destinationSize > |ValueText(floats, table[index], values[index])| ==> r == ValueText(floats, table[index], values[index])
    ensures 0 < destinationSize <= |ValueText(floats, table[index], values[index])| ==> |r| == destinationSize - 1
  {
    Clipped(ValueText(floats, table[index], values[index]), destinationSize)
  }

  /** Ximu3SettingsJsonGetObject: `{"key":value}`, the value first clipped to the value buffer. */
  function GetObject(floats: FloatSupport, sizes: Sizes, table: seq<Metadata>, values: seq<seq<byte>>, destinationSize: nat, index: nat): (r: seq<char>)
    requires ValidFloatSupport(floats) && ValidTable(table) && Fits(table, values) && index < |table|
    ensures var whole := "{\"" + table[index].key + "\":" + GetValue(floats, table, values, sizes.valueSize, index) + "}";
      && r <= whole
      && (destinationSize > 0 ==> |r| < destinationSize)
      && (destinationSize > |whole| ==> r == whole)
      && (0 < destinationSize <= |whole| ==> |r| == destinationSize - 1)
  {
    Clipped("{\"" + table[index].key + "\":" + GetValue(floats, table, values, sizes.valueSize, index) + "}", destinationSize)
  }

  // ---------------------------------------------------------------------------
  // Rendering every setting

  /** `%-*s`: `s` left-justified in a field of `width` characters. */
  function PadRight(s: seq<char>, width: nat): (r: seq<char>)
    ensures s <= r && |r| == if |s| < width then width else |s|
    ensures forall k :: |s| <= k < |r| ==> r[k] == ' '
  {
    if |s| < width then s + seq(width - |s|, _ => ' ') else s
  }

  /** One key/value pair of the listing: the quoted name padded to the widest key, then the value. */
  function PairText(floats: FloatSupport, sizes: Sizes, table: seq<Metadata>, values: seq<seq<byte>>, index: nat): (r: seq<char>)
    requires ValidFloatSupport(floats) && ValidTable(table) && Fits(table, values) && index < |table|
  {
    PadRight(Clipped("\"" + table[index].name + "\"", sizes.keySize), sizes.maxKeyLength + 2)
      + " : " + GetValue(floats, table, values, sizes.valueSize, index)
  }

  /** A whole line of the listing: indented, with a comma unless it is the last. */
  function PairLine(floats: FloatSupport, sizes: Sizes, table: seq<Metadata>, values: seq<seq<byte>>, index: nat): (r: seq<char>)
    requires ValidFloatSupport(floats) && ValidTable(table) && Fits(table, values) && index < |table|
  {
    "    " + PairText(floats, sizes, table, values, index) + (if index < |table| - 1 then "," else "") + "\n"
  }

  /** The listing up to its `n`th line: the opening brace, then the first `n` lines in index order. */
  function Listing(floats: FloatSupport, sizes: Sizes, table: seq<Metadata>, values: seq<seq<byte>>, n: nat): (r: seq<char>)
    requires ValidFloatSupport(floats) && ValidTable(table) && Fits(table, values) && n <= |table|
  {
    if n == 0 then "{\n" else Listing(floats, sizes, table, values, n - 1) + PairLine(floats, sizes, table, values, n - 1)
  }

  /** The unbounded listing of every setting as one object. */
  function ObjectAllText(floats: FloatSupport, sizes: Sizes, table: seq<Metadata>, values: seq<seq<byte>>): seq<char>
    requires ValidFloatSupport(floats) && ValidTable(table) && Fits(table, values)
  {
    Listing(floats, sizes, table, values, |table|) + "}\n"
  }

  lemma NoNulAppend(a: seq<char>, b: seq<char>)
    requires NoNul(a) && NoNul(b)
    ensures NoNul(a + b)
  {
  }

  /** The pair the listing formats from a key buffer and a value buffer is PairText, and holds no terminator. */
  lemma PairTextNoNul(floats: FloatSupport, sizes: Sizes, table: seq<Metadata>, values: seq<seq<byte>>, index: nat, key: seq<char>, value: seq<char>)
    requires ValidFloatSupport(floats) && ValidTable(table) && Fits(table, values) && index < |table|
    requires key == Clipped("\"" + table[index].name + "\"", sizes.keySize)
    requires value == GetValue(floats, table, values, sizes.valueSize, index)
    ensures PadRight(key, sizes.maxKeyLength + 2) + " : " + value == PairText(floats, sizes, table, values, index)
    ensures NoNul(PairText(floats, sizes, table, values, index))
  {
    var key := Clipped("\"" + table[index].name + "\"", sizes.keySize);
    NoNulAppend("\"" + table[index].name, "\"");
    assert NoNul(key);
    assert NoNul(PadRight(key, sizes.maxKeyLength + 2));
  }

  /**
   * Append: adds `source` to the C string held in `destination`, keeping the
   * longest prefix that fits beside the terminator; nothing is written past
   * the end of the buffer.
   */
  method Append(destination: array<char>, source: seq<char>)
    requires |Terminated(destination[..])| < destination.Length && NoNul(source)
    modifies destination
    ensures |Terminated(destination[..])| < destination.Length
    ensures Terminated(destination[..]) == Clipped(old(Terminated(destination[..])) + source, destination.Length)
  {
    ghost var before := destination[..];
    var stringLength := |Terminated(destination[..])|;
    assert before[..stringLength] == Terminated(before);
    WriteAt(destination, stringLength, source);
    WriteAtHolds(before, destination[..], stringLength, source);
  }

  /**
   * Ximu3SettingsJsonGetObjectAll: `{`, one line per setting in index order,
   * then `}`, all grown in place in the destination and clipped to it.
   */
  method GetObjectAll(floats: FloatSupport, sizes: Sizes, settings: Settings, destination: array<char>)
    requires settings.Valid() && ValidFloatSupport(floats) && destination.Length >= 1
    modifies destination
    ensures Terminated(destination[..]) == Clipped(ObjectAllText(floats, sizes, settings.table, settings.values), destination.Length)
  {
    var table, values := settings.table, settings.values;
    var size := destination.Length;

    // Object start
    ghost var before := destination[..];
    WriteAt(destination, 0, "{\n");
    WriteAtHolds(before, destination[..], 0, "{\n");
    assert before[..0] + "{\n" == Listing(floats, sizes, table, values, 0);

    // Key/value pairs
    AppendPairLines(floats, sizes, table, values, destination);

    // Object end
    Append(destination, "}\n");
    ListingClosed(floats, sizes, table, values, size);
  }

  /** The loop of GetObjectAll: one line per setting, in index order. */
  method AppendPairLines(floats: FloatSupport, sizes: Sizes, table: seq<Metadata>, values: seq<seq<byte>>, destination: array<char>)
    requires ValidFloatSupport(floats) && ValidTable(table) && Fits(table, values) && destination.Length >= 1
    requires Terminated(destination[..]) == Clipped(Listing(floats, sizes, table, values, 0), destination.Length)
    modifies destination
    ensures Terminated(destination[..]) == Clipped(Listing(floats, sizes, table, values, |table|), destination.Length)
  {
    for index := 0 to |table|
      invariant Terminated(destination[..]) == Clipped(Listing(floats, sizes, table, values, index), destination.Length)
    {
      AppendPairLine(floats, sizes, table, values, index, destination);
      ClippedAppend(Listing(floats, sizes, table, values, index), PairLine(floats, sizes, table, values, index), destination.Length);
    }
  }

  /** Closing the clipped listing with the final brace clips the whole listing. */
  lemma ListingClosed(floats: FloatSupport, sizes: Sizes, table: seq<Metadata>, values: seq<seq<byte>>, size: nat)
    requires ValidFloatSupport(floats) && ValidTable(table) && Fits(table, values) && size >= 1
    ensures Clipped(Clipped(Listing(floats, sizes, table, values, |table|), size) + "}\n", size)
      == Clipped(ObjectAllText(floats, sizes, table, values), size)
  {
    ClippedAppend(Listing(floats, sizes, table, values, |table|), "}\n", size);
  }

  /** One pass of the GetObjectAll loop: indentation, the key/value pair, the comma if not last, the newline. */
  method AppendPairLine(floats: FloatSupport, sizes: Sizes, table: seq<Metadata>, values: seq<seq<byte>>, index: nat, destination: array<char>)
    requires ValidFloatSupport(floats) && ValidTable(table) && Fits(table, values) && index < |table|
    requires |Terminated(destination[..])| < destination.Length
    modifies destination
    ensures |Terminated(destination[..])| < destination.Length
    ensures Terminated(destination[..]) == Clipped(old(Terminated(destination[..])) + PairLine(floats, sizes, table, values, index), destination.Length)
  {
    ghost var start := Terminated(destination[..]);

    // Indentation
    Append(destination, "    ");

    // Key and value
    var key := Clipped("\"" + table[index].name + "\"", sizes.keySize);
    var value := GetValue(floats, table, values, sizes.valueSize, index);

    // Key/value pair, written at the end of the string as Append writes
    var pair := PadRight(key, sizes.maxKeyLength + 2) + " : " + value;
    PairTextNoNul(floats, sizes, table, values, index, key, value);
    Append(destination, pair);
    ghost var paired := Terminated(destination[..]);

    // Comma
    var comma: seq<char> := if index < |table| - 1 then "," else "";
    if index < |table| - 1 {
      Append(destination, ",");
    } else {
      ClippedFits(paired, destination.Length);
    }
    Append(destination, "\n");

    LineClipped(start, "    ", pair, comma, "\n", destination.Length);
  }

  /** Clipping a text that already fits changes nothing, whatever empty text is added. */
  lemma ClippedFits(text: seq<char>, size: nat)
    requires |text| < size
    ensures Clipped(text + [], size) == text
  {
    assert text + [] == text;
  }

  /** Four bounded appends in a row clip like one append of the four pieces. */
  lemma LineClipped(t: seq<char>, a: seq<char>, b: seq<char>, c: seq<char>, d: seq<char>, size: nat)
    requires size >= 1
    ensures Clipped(Clipped(Clipped(Clipped(t + a, size) + b, size) + c, size) + d, size)
      == Clipped(t + (a + b + c + d), size)
  {
    ClippedAppend(t + a, b, size);
    ClippedAppend(t + a + b, c, size);
    ClippedAppend(t + a + b + c, d, size);
    assert t + a + b + c + d == t + (a + b + c + d);
  }

  // ---------------------------------------------------------------------------
  // Parsing values into the store

  /** What parsing one value returns: the error, where the value cursor is left, and the store after. */
  datatype PairOutcome = PairOutcome(error: JsonError, next: nat, store: Store)

  predicate ParseRequirements(tok: Tokenizer, table: seq<Metadata>, st: Store, index: nat, text: seq<char>, cursor: nat)
  {
    ValidTable(table) && StoreFits(table, st) && index < |table| && cursor <= |text|
  }

  /** ParseBool: a JSON boolean is stored as one byte, 1 for true and 0 for false. */
  function ParseBoolSpec(tok: Tokenizer, table: seq<Metadata>, st: Store, index: nat, text: seq<char>, cursor: nat, overrideReadOnly: bool): (o: PairOutcome)
    requires ValidTokenizer(tok) && ParseRequirements(tok, table, st, index, text, cursor) && table[index].kind == Bool
    ensures StoreFits(table, o.store) && cursor <= o.next <= |text|
  {
    var p := tok.boolean(text, cursor);
    if p.Failed? then PairOutcome(JsonFailure(p.code), p.next, st)
    else PairOutcome(JsonOk, p.next, SetSpec(table, st, index, Bytes([if p.value then 1 else 0]), overrideReadOnly))
  }

  /** ParseCharArray: a JSON string, parsed into a buffer of the value size, is stored as a C string. */
  function ParseCharArraySpec(tok: Tokenizer, valueSize: nat, table: seq<Metadata>, st: Store, index: nat, text: seq<char>, cursor: nat, overrideReadOnly: bool): (o: PairOutcome)
    requires ValidTokenizer(tok) && ParseRequirements(tok, table, st, index, text, cursor) && table[index].kind == CharArray
    ensures StoreFits(table, o.store) && cursor <= o.next <= |text|
  {
    var p := tok.stringValue(text, cursor, valueSize);
    if p.Failed? then PairOutcome(JsonFailure(p.code), p.next, st)
    else PairOutcome(JsonOk, p.next, SetSpec(table, st, index, Text(p.value), overrideReadOnly))
  }

  /** ParseFloat: a JSON number is stored as the four bytes of its float. */
  function ParseFloatSpec(tok: Tokenizer, table: seq<Metadata>, st: Store, index: nat, text: seq<char>, cursor: nat, overrideReadOnly: bool): (o: PairOutcome)
    requires ValidTokenizer(tok) && ParseRequirements(tok, table, st, index, text, cursor) && table[index].kind == Float
    ensures StoreFits(table, o.store) && cursor <= o.next <= |text|
  {
    var p := tok.number(text, cursor);
    if p.Failed? then PairOutcome(JsonFailure(p.code), p.next, st)
    else PairOutcome(JsonOk, p.next, SetSpec(table, st, index, Bytes(p.value), overrideReadOnly))
  }

  /** ParseUint32: a JSON number, parsed as a float, is converted to `uint32_t` and stored. */
  function ParseUint32Spec(tok: Tokenizer, floats: FloatSupport, table: seq<Metadata>, st: Store, index: nat, text: seq<char>, cursor: nat, overrideReadOnly: bool): (o: PairOutcome)
    requires ValidTokenizer(tok) && ValidFloatSupport(floats) && ParseRequirements(tok, table, st, index, text, cursor) && table[index].kind == Uint32
    ensures StoreFits(table, o.store) && cursor <= o.next <= |text|
  {
    var p := tok.number(text, cursor);
    if p.Failed? then PairOutcome(JsonFailure(p.code), p.next, st)
    else PairOutcome(JsonOk, p.next, SetSpec(table, st, index, Bytes(Uint32Bytes(floats.toUint32(p.value))), overrideReadOnly))
  }

  /** Ximu3SettingsJsonSetKeyValue as a function of the store before the call. */
  function SetKeyValueSpec(tok: Tokenizer, floats: FloatSupport, valueSize: nat, table: seq<Metadata>, st: Store, key: seq<char>, text: seq<char>, cursor: nat, overrideReadOnly: bool): (o: PairOutcome)
    requires ValidTokenizer(tok) && ValidFloatSupport(floats) && ValidTable(table) && StoreFits(table, st) && cursor <= |text|
    ensures StoreFits(table, o.store) && cursor <= o.next <= |text|
  {
    match FindIndex(table, key)
    case None => PairOutcome(JsonOk, cursor, st)
    case Some(index) =>
      match table[index].kind
      case Bool => ParseBoolSpec(tok, table, st, index, text, cursor, overrideReadOnly)
      case CharArray => ParseCharArraySpec(tok, valueSize, table, st, index, text, cursor, overrideReadOnly)
      case Float => ParseFloatSpec(tok, table, st, index, text, cursor, overrideReadOnly)
      case Uint32 => ParseUint32Spec(tok, floats, table, st, index, text, cursor, overrideReadOnly)
  }

  /**
   * What one key/value pair does to the store: an unknown key succeeds
   * without consuming the value or touching the store; a value that does not
   * parse returns the tokenizer's error and leaves the store as it was; a
   * value that parses is handed to Set for the first matching field alone.
   * In every case the apply-pending invariant is kept.
   */
  lemma SetKeyValueEffect(tok: Tokenizer, floats: FloatSupport, valueSize: nat, table: seq<Metadata>, st: Store, key: seq<char>, text: seq<char>, cursor: nat, overrideReadOnly: bool)
    requires ValidTokenizer(tok) && ValidFloatSupport(floats) && ValidTable(table) && StoreFits(table, st) && cursor <= |text|
    ensures var o := SetKeyValueSpec(tok, floats, valueSize, table, st, key, text, cursor, overrideReadOnly);
      && Tracked(st, o.store)
      && (FindIndex(table, key).None? ==> o == PairOutcome(JsonOk, cursor, st))
      && (o.error != JsonOk ==> o.store == st)
      && (forall k :: 0 <= k < |table| && Some(k) != FindIndex(table, key) ==>
            o.store.values[k] == st.values[k] && o.store.applyPendings[k] == st.applyPendings[k])
  {
    var o := SetKeyValueSpec(tok, floats, valueSize, table, st, key, text, cursor, overrideReadOnly);
    match FindIndex(table, key)
    case None =>
    case Some(index) =>
      if o.error == JsonOk {
        var raw := match table[index].kind
          case Bool => Bytes([if tok.boolean(text, cursor).value then 1 else 0])
          case CharArray => Text(tok.stringValue(text, cursor, valueSize).value)
          case Float => Bytes(tok.number(text, cursor).value)
          case Uint32 => Bytes(Uint32Bytes(floats.toUint32(tok.number(text, cursor).value)));
        assert o.store == SetSpec(table, st, index, raw, overrideReadOnly);
        SetOnlyTouchesField(table, st, index, raw, overrideReadOnly);
      }
  }

  /** Writing a boolean and reading the field back renders that boolean. */
  lemma BoolReadBack(floats: FloatSupport, table: seq<Metadata>, st: Store, index: nat, b: bool, destinationSize: nat)
    requires ValidFloatSupport(floats) && ValidTable(table) && StoreFits(table, st) && index < |table|
    requires table[index].kind == Bool && !table[index].readOnly
    requires destinationSize > 5
    ensures var after := SetSpec(table, st, index, Bytes([if b then 1 else 0]), false);
      GetValue(floats, table, after.values, destinationSize, index) == if b then "true" else "false"
  {
  }

  /** Writing a number to a Uint32 field and reading it back yields the decimal text of that number. */
  lemma Uint32ReadBack(floats: FloatSupport, table: seq<Metadata>, st: Store, index: nat, n: nat, destinationSize: nat)
    requires ValidFloatSupport(floats) && ValidTable(table) && StoreFits(table, st) && index < |table|
    requires table[index].kind == Uint32 && !table[index].readOnly && n < 0x1_0000_0000
    requires destinationSize > 10
    ensures var after := SetSpec(table, st, index, Bytes(Uint32Bytes(n)), false);
      var text := GetValue(floats, table, after.values, destinationSize, index);
      && text == Decimal(n)
      && DecimalValue(text) == n
  {
    Uint32RoundTrip(n);
    DecimalRoundTrip(n);
    DecimalLength(n, 10);
  }

  function Pow10(k: nat): (r: nat)
    ensures r >= 1
  {
    if k == 0 then 1 else 10 * Pow10(k - 1)
  }

  /** A number below 10^k has at most k decimal digits; so `%u` of a `uint32_t` takes at most ten. */
  lemma {:induction false} DecimalLength(n: nat, k: nat)
    requires k >= 1 && n < Pow10(k)
    ensures |Decimal(n)| <= k
  {
    if n >= 10 {
      DecimalLength(n / 10, k - 1);
    }
  }

  /**
   * Writing a printable string that fits to a char-array field and reading it
   * back renders that string in double quotes.
   */
  lemma CharArrayReadBack(floats: FloatSupport, table: seq<Metadata>, st: Store, index: nat, source: seq<char>, destinationSize: nat)
    requires ValidFloatSupport(floats) && ValidTable(table) && StoreFits(table, st) && index < |table|
    requires table[index].kind == CharArray && !table[index].readOnly
    requires NoNul(source) && |source| < table[index].size && forall k :: 0 <= k < |source| ==> IsPrint(source[k])
    requires destinationSize > |source| + 2
    ensures var after := SetSpec(table, st, index, Text(source), false);
      GetValue(floats, table, after.values, destinationSize, index) == "\"" + source + "\""
  {
    var size := table[index].size;
    var after := SetSpec(table, st, index, Text(source), false);
    var region := after.values[index];
    if Unchanged(table[index], st.values[index], Text(source)) {
      StrnEqualReadsSource(region, source, 0, size);
    } else {
      SanitisedReadBack(source, size);
      CleanTextPrintable(source);
      assert source[..Min(|source|, size - 1)] == source;
    }
  }

  /** Cleaning a printable string leaves it as it is. */
  lemma {:induction false} CleanTextPrintable(s: seq<char>)
    requires forall k :: 0 <= k < |s| ==> IsPrint(s[k])
    ensures CleanText(s) == s
  {
    if s != [] {
      CleanTextPrintable(s[1..]);
    }
  }

  /**
   * A region that strncmp-equals a C string shorter than the region holds
   * exactly that string.
   */
  lemma {:induction false} StrnEqualReadsSource(region: seq<byte>, source: seq<char>, k: nat, n: nat)
    requires |region| == n && |source| < n && NoNul(source) && k <= |source|
    requires forall j :: 0 <= j < k ==> region[j] as int == source[j] as int && region[j] != 0
    requires StrnEqualFrom(region, source, k, n)
    ensures StoredText(region) == source
    decreases |source| - k
  {
    StoredTextPrefix(region, k);
    if k == |source| {
      assert region[k] == 0;
      assert StoredText(region) == source;
    } else {
      assert region[k] as int == source[k] as int;
      StrnEqualReadsSource(region, source, k + 1, n);
    }
  }

  method ParseBool(tok: Tokenizer, settings: Settings, index: nat, text: seq<char>, cursor: nat, overrideReadOnly: bool)
    returns (error: JsonError, next: nat)
    requires settings.Valid() && ValidTokenizer(tok) && index < |settings.table| && cursor <= |text|
    requires settings.table[index].kind == Bool
    modifies settings
    ensures settings.Valid() && settings.calls == old(settings.calls)
    ensures PairOutcome(error, next, settings.State())
      == ParseBoolSpec(tok, settings.table, old(settings.State()), index, text, cursor, overrideReadOnly)
  {
    var p := tok.boolean(text, cursor);
    if p.Failed? {
      return JsonFailure(p.code), p.next;
    }
    settings.Set(index, Bytes([if p.value then 1 else 0]), overrideReadOnly);
    return JsonOk, p.next;
  }

  method ParseCharArray(tok: Tokenizer, sizes: Sizes, settings: Settings, index: nat, text: seq<char>, cursor: nat, overrideReadOnly: bool)
    returns (error: JsonError, next: nat)
    requires settings.Valid() && ValidTokenizer(tok) && index < |settings.table| && cursor <= |text|
    requires settings.table[index].kind == CharArray
    modifies settings
    ensures settings.Valid() && settings.calls == old(settings.calls)
    ensures PairOutcome(error, next, settings.State())
      == ParseCharArraySpec(tok, sizes.valueSize, settings.table, old(settings.State()), index, text, cursor, overrideReadOnly)
  {
    var p := tok.stringValue(text, cursor, sizes.valueSize);
    if p.Failed? {
      return JsonFailure(p.code), p.next;
    }
    settings.Set(index, Text(p.value), overrideReadOnly);
    return JsonOk, p.next;
  }

  method ParseFloat(tok: Tokenizer, settings: Settings, index: nat, text: seq<char>, cursor: nat, overrideReadOnly: bool)
    returns (error: JsonError, next: nat)
    requires settings.Valid() && ValidTokenizer(tok) && index < |settings.table| && cursor <= |text|
    requires settings.table[index].kind == Float
    modifies settings
    ensures settings.Valid() && settings.calls == old(settings.calls)
    ensures PairOutcome(error, next, settings.State())
      == ParseFloatSpec(tok, settings.table, old(settings.State()), index, text, cursor, overrideReadOnly)
  {
    var p := tok.number(text, cursor);
    if p.Failed? {
      return JsonFailure(p.code), p.next;
    }
    settings.Set(index, Bytes(p.value), overrideReadOnly);
    return JsonOk, p.next;
  }

  method ParseUint32(tok: Tokenizer, floats: FloatSupport, settings: Settings, index: nat, text: seq<char>, cursor: nat, overrideReadOnly: bool)
    returns (error: JsonError, next: nat)
    requires settings.Valid() && ValidTokenizer(tok) && ValidFloatSupport(floats) && index < |settings.table| && cursor <= |text|
    requires settings.table[index].kind == Uint32
    modifies settings
    ensures settings.Valid() && settings.calls == old(settings.calls)
    ensures PairOutcome(error, next, settings.State())
      == ParseUint32Spec(tok, floats, settings.table, old(settings.State()), index, text, cursor, overrideReadOnly)
  {
    var p := tok.number(text, cursor);
    if p.Failed? {
      return JsonFailure(p.code), p.next;
    }
    var numberUint32 := floats.toUint32(p.value);
    settings.Set(index, Bytes(Uint32Bytes(numberUint32)), overrideReadOnly);
    return JsonOk, p.next;
  }

  /** Ximu3SettingsJsonSetKeyValue. */
  method SetKeyValue(tok: Tokenizer, floats: FloatSupport, sizes: Sizes, settings: Settings, key: seq<char>, text: seq<char>, cursor: nat, overrideReadOnly: bool)
    returns (error: JsonError, next: nat)
    requires settings.Valid() && ValidTokenizer(tok) && ValidFloatSupport(floats) && NoNul(key) && cursor <= |text|
    modifies settings
    ensures settings.Valid() && settings.calls == old(settings.calls)
    ensures PairOutcome(error, next, settings.State())
      == SetKeyValueSpec(tok, floats, sizes.valueSize, settings.table, old(settings.State()), key, text, cursor, overrideReadOnly)
  {
    // Get index
    var result, index := GetIndex(settings, 0, key);
    if result != 0 {
      return JsonOk, cursor;
    }

    // Parse value
    match settings.table[index].kind
    case Bool =>
      error, next := ParseBool(tok, settings, index, text, cursor, overrideReadOnly);
    case CharArray =>
      error, next := ParseCharArray(tok, sizes, settings, index, text, cursor, overrideReadOnly);
    case Float =>
      error, next := ParseFloat(tok, settings, index, text, cursor, overrideReadOnly);
    case Uint32 =>
      error, next := ParseUint32(tok, floats, settings, index, text, cursor, overrideReadOnly);
  }

  // ---------------------------------------------------------------------------
  // Parsing a whole object into the store

  /** The error SetObject returns and the store it leaves. */
  datatype ObjectOutcome = ObjectOutcome(error: JsonError, store: Store)

  /**
   * The pair loop of SetObject from cursor `cursor`: parse a key, apply its
   * value, then either a comma and the next pair or the end of the object.
   * The first error stops the loop; pairs applied before it stay applied.
   */
  function PairsSpec(tok: Tokenizer, floats: FloatSupport, sizes: Sizes, table: seq<Metadata>, st: Store, text: seq<char>, cursor: nat, overrideReadOnly: bool): (o: ObjectOutcome)
    requires ValidTokenizer(tok) && ValidFloatSupport(floats) && ValidTable(table) && StoreFits(table, st) && cursor <= |text|
    ensures StoreFits(table, o.store)
    decreases |text| - cursor
  {
    var key := tok.key(text, cursor, sizes.keySize);
    if key.Failed? then ObjectOutcome(JsonFailure(key.code), st)
    else
      var pair := SetKeyValueSpec(tok, floats, sizes.valueSize, table, st, key.value, text, key.next, overrideReadOnly);
      if pair.error != JsonOk then ObjectOutcome(pair.error, pair.store)
      else
        var comma := tok.comma(text, pair.next);
        if comma.Parsed? then PairsSpec(tok, floats, sizes, table, pair.store, text, comma.next, overrideReadOnly)
        else ObjectOutcome(ErrorOf(tok.objectEnd(text, comma.next)), pair.store)
  }

  /** Ximu3SettingsJsonSetObject as a function of the store before the call. */
  function SetObjectSpec(tok: Tokenizer, floats: FloatSupport, sizes: Sizes, table: seq<Metadata>, st: Store, text: seq<char>, overrideReadOnly: bool): (o: ObjectOutcome)
    requires ValidTokenizer(tok) && ValidFloatSupport(floats) && ValidTable(table) && StoreFits(table, st)
    ensures StoreFits(table, o.store)
  {
    var start := tok.objectStart(text, 0);
    if start.Failed? then ObjectOutcome(JsonFailure(start.code), st)
    else
      var end := tok.objectEnd(text, start.next);
      if end.Parsed? then ObjectOutcome(JsonOk, st)
      else PairsSpec(tok, floats, sizes, table, st, text, end.next, overrideReadOnly)
  }

  /** An empty object succeeds and changes nothing. */
  lemma EmptyObjectIsNoOp(tok: Tokenizer, floats: FloatSupport, sizes: Sizes, table: seq<Metadata>, st: Store, text: seq<char>, overrideReadOnly: bool)
    requires ValidTokenizer(tok) && ValidFloatSupport(floats) && ValidTable(table) && StoreFits(table, st)
    requires tok.objectStart(text, 0).Parsed? && tok.objectEnd(text, tok.objectStart(text, 0).next).Parsed?
    ensures SetObjectSpec(tok, floats, sizes, table, st, text, overrideReadOnly) == ObjectOutcome(JsonOk, st)
  {
  }

  /** However far the pair loop gets, the apply-pending invariant holds between the store before and after. */
  lemma {:induction false} PairsTracked(tok: Tokenizer, floats: FloatSupport, sizes: Sizes, table: seq<Metadata>, st: Store, text: seq<char>, cursor: nat, overrideReadOnly: bool)
    requires ValidTokenizer(tok) && ValidFloatSupport(floats) && ValidTable(table) && StoreFits(table, st) && cursor <= |text|
    ensures Tracked(st, PairsSpec(tok, floats, sizes, table, st, text, cursor, overrideReadOnly).store)
    decreases |text| - cursor
  {
    var key := tok.key(text, cursor, sizes.keySize);
    if key.Parsed? {
      var pair := SetKeyValueSpec(tok, floats, sizes.valueSize, table, st, key.value, text, key.next, overrideReadOnly);
      SetKeyValueEffect(tok, floats, sizes.valueSize, table, st, key.value, text, key.next, overrideReadOnly);
      if pair.error == JsonOk {
        var comma := tok.comma(text, pair.next);
        if comma.Parsed? {
          PairsTracked(tok, floats, sizes, table, pair.store, text, comma.next, overrideReadOnly);
          TrackedTransitive(st, pair.store, PairsSpec(tok, floats, sizes, table, pair.store, text, comma.next, overrideReadOnly).store);
        }
      }
    }
  }

  /** SetObject keeps the apply-pending invariant: every field it changes is flagged, and no flag is cleared. */
  lemma SetObjectTracked(tok: Tokenizer, floats: FloatSupport, sizes: Sizes, table: seq<Metadata>, st: Store, text: seq<char>, overrideReadOnly: bool)
    requires ValidTokenizer(tok) && ValidFloatSupport(floats) && ValidTable(table) && StoreFits(table, st)
    ensures Tracked(st, SetObjectSpec(tok, floats, sizes, table, st, text, overrideReadOnly).store)
  {
    var start := tok.objectStart(text, 0);
    if start.Parsed? {
      var end := tok.objectEnd(text, start.next);
      if end.Failed? {
        PairsTracked(tok, floats, sizes, table, st, text, end.next, overrideReadOnly);
      }
    }
  }

  /** Ximu3SettingsJsonSetObject. */
  method SetObject(tok: Tokenizer, floats: FloatSupport, sizes: Sizes, settings: Settings, text: seq<char>, overrideReadOnly: bool)
    returns (error: JsonError)
    requires settings.Valid() && ValidTokenizer(tok) && ValidFloatSupport(floats)
    modifies settings
    ensures settings.Valid() && settings.calls == old(settings.calls)
    ensures ObjectOutcome(error, settings.State())
      == SetObjectSpec(tok, floats, sizes, settings.table, old(settings.State()), text, overrideReadOnly)
  {
    // Parse object start
    var start := tok.objectStart(text, 0);
    if start.Failed? {
      return JsonFailure(start.code);
    }

    // Parse object end
    var end := tok.objectEnd(text, start.next);
    if end.Parsed? {
      return JsonOk;
    }

    // Loop through each key/value pair
    var cursor := end.next;
    while true
      invariant settings.Valid() && settings.calls == old(settings.calls) && cursor <= |text|
      invariant SetObjectSpec(tok, floats, sizes, settings.table, old(settings.State()), text, overrideReadOnly)
        == PairsSpec(tok, floats, sizes, settings.table, settings.State(), text, cursor, overrideReadOnly)
      decreases |text| - cursor
    {
      // Parse key
      var key := tok.key(text, cursor, sizes.keySize);
      if key.Failed? {
        return JsonFailure(key.code);
      }

      // Parse value
      error, cursor := SetKeyValue(tok, floats, sizes, settings, key.value, text, key.next, overrideReadOnly);
      if error != JsonOk {
        return error;
      }

      // Parse comma
      var comma := tok.comma(text, cursor);
      if comma.Parsed? {
        cursor := comma.next;
        continue;
      }

      // Parse object end
      var close := tok.objectEnd(text, comma.next);
      if close.Failed? {
        return JsonFailure(close.code);
      }
      return JsonOk;
    }
  }
}
