/**
 * The JSON tokenizer the settings codec and the command bridge call
 * (Json/Json.h). Its code is not part of this model. Each entry point is a
 * function value that reads the text from a cursor and either yields what
 * it parsed together with the advanced cursor, or an error code together
 * with wherever it left the cursor. `ValidTokenizer` collects the only facts
 * about the tokenizer that the callers rely on.
 */
module Json {
  import opened CString

  /** The outcome of one tokenizer call on `(text, cursor)`. */
  datatype Parsed<T> = Parsed(value: T, next: nat) | Failed(code: nat, next: nat)

  /** `JsonError`: success, or the tokenizer's error code. */
  datatype JsonError = JsonOk | JsonFailure(code: nat)

  /** The error a tokenizer outcome reports. */
  function ErrorOf<T>(p: Parsed<T>): (e: JsonError)
    ensures e == JsonOk <==> p.Parsed?
  {
    if p.Parsed? then JsonOk else JsonFailure(p.code)
  }

  datatype Tokenizer = Tokenizer(
    objectStart: (seq<char>, nat) -> Parsed<()>,            // JsonParseObjectStart
    objectEnd: (seq<char>, nat) -> Parsed<()>,              // JsonParseObjectEnd
    comma: (seq<char>, nat) -> Parsed<()>,                  // JsonParseComma
    key: (seq<char>, nat, nat) -> Parsed<seq<char>>,        // JsonParseKey into a buffer of the given size
    value: (seq<char>, nat) -> Parsed<()>,                  // JsonParse: skips any one value
    nullValue: (seq<char>, nat) -> Parsed<()>,              // JsonParseNull
    boolean: (seq<char>, nat) -> Parsed<bool>,              // JsonParseBoolean
    stringValue: (seq<char>, nat, nat) -> Parsed<seq<char>>, // JsonParseString into a buffer of the given size
    number: (seq<char>, nat) -> Parsed<seq<byte>>,          // JsonParseNumber: the 4 bytes of a float
    errorText: nat -> seq<char>)                            // JsonErrorToString

  /** The cursor a call leaves stays within the text and never moves back. */
  predicate Within<T>(p: Parsed<T>, text: seq<char>, cursor: nat) {
    cursor <= p.next <= |text|
  }

  ghost predicate ValidTokenizer(t: Tokenizer) {
    && (forall text: seq<char>, cursor: nat :: cursor <= |text| ==> Within(t.objectStart(text, cursor), text, cursor))
    && (forall text: seq<char>, cursor: nat :: cursor <= |text| ==> Within(t.objectEnd(text, cursor), text, cursor))
    && (forall text: seq<char>, cursor: nat :: cursor <= |text| ==> Within(t.value(text, cursor), text, cursor))
    && (forall text: seq<char>, cursor: nat :: cursor <= |text| ==> Within(t.nullValue(text, cursor), text, cursor))
    && (forall text: seq<char>, cursor: nat :: cursor <= |text| ==> Within(t.boolean(text, cursor), text, cursor))
    && (forall text: seq<char>, cursor: nat :: cursor <= |text| ==> Within(t.number(text, cursor), text, cursor))
    // a comma that parses has been consumed
    && (forall text: seq<char>, cursor: nat :: cursor <= |text| ==>
          Within(t.comma(text, cursor), text, cursor) &&
          (t.comma(text, cursor).Parsed? ==> t.comma(text, cursor).next > cursor))
    // a key or string that parses is a C string that fits its buffer
    && (forall text: seq<char>, cursor: nat, size: nat :: cursor <= |text| ==>
          Within(t.key(text, cursor, size), text, cursor) &&
          (t.key(text, cursor, size).Parsed? ==>
             NoNul(t.key(text, cursor, size).value) && |t.key(text, cursor, size).value| < size))
    && (forall text: seq<char>, cursor: nat, size: nat :: cursor <= |text| ==>
          Within(t.stringValue(text, cursor, size), text, cursor) &&
          (t.stringValue(text, cursor, size).Parsed? ==>
             NoNul(t.stringValue(text, cursor, size).value) && |t.stringValue(text, cursor, size).value| < size))
    // a float is four bytes
    && (forall text: seq<char>, cursor: nat :: cursor <= |text| && t.number(text, cursor).Parsed? ==> |t.number(text, cursor).value| == 4)
    && (forall code: nat :: NoNul(t.errorText(code)))
  }
}
