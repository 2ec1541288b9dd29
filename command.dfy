/**
 * Ximu3Command.c: the command bridge. Each interface accumulates received
 * bytes into a line buffer; a complete line is parsed as a JSON object
 * holding a single key/value pair and dispatched to a built-in command, a
 * setting, or the unknown-key hook, and the answer is written back to the
 * interface as `{"key":value}\n`.
 *
 * The bridge's hooks (interface read and write, command callbacks, the
 * error, write-epilogue and unknown-key hooks) are not code of this model:
 * every call the bridge makes to one of them is recorded, in order, in an
 * event log, and the read hook is replaced by the chunks it returns.
 */
module Command {
  import opened CString
  import opened Optional
  import opened Key
  import opened KeyCompare
  import opened Settings
  import opened Json
  import opened SettingsJson
  import opened Definitions

  // ---------------------------------------------------------------------------
  // Configuration and observable events

  /**
   * The optional hooks of a bridge: each is present or NULL. The read-only
   * override hook is represented by the answer it gives.
   */
  datatype Hooks = Hooks(overrideReadOnly: Option<bool>, writeEpilogue: bool, unknown: bool, error: bool)

  /**
   * Everything a bridge dispatches against: the tokenizer and float
   * collaborators, the buffer sizes, the keys of the command map, the
   * metadata table of the settings store (None when the bridge has no
   * store), and the hooks.
   */
  datatype Env = Env(
    tok: Tokenizer,
    floats: FloatSupport,
    sizes: Sizes,
    commands: seq<seq<char>>,
    table: Option<seq<Metadata>>,
    hooks: Hooks)

  ghost predicate ValidEnv(env: Env) {
    && ValidTokenizer(env.tok)
    && ValidFloatSupport(env.floats)
    && ValidSizes(env.sizes)
    && (forall i :: 0 <= i < |env.commands| ==> NoNul(env.commands[i]))
    && (env.table.Some? ==> ValidTable(env.table.value))
  }

  /** The store is laid out as the bridge's table says (nothing is asked of it when there is no store). */
  predicate StoreOk(env: Env, st: Store) {
    env.table.Some? ==> StoreFits(env.table.value, st)
  }

  /** Ximu3CommandResponse: the interface to answer on, the key buffer and the value buffer. */
  datatype Response = Response(interface: nat, key: seq<char>, value: seq<char>)

  /** A call the bridge makes to one of its hooks. */
  datatype Event =
    | Reported(message: seq<char>)                                                  // bridge->error
    | Wrote(interface: nat, data: seq<char>)                                        // interface->write
    | CommandCalled(command: nat, line: seq<char>, valueAt: nat, response: Response) // commands[command].callback
    | UnknownCalled(key: seq<char>, line: seq<char>, valueAt: nat, response: Response) // bridge->unknown
    | WriteEpilogueCalled(index: nat)                                                // bridge->writeEpilogue

  // ---------------------------------------------------------------------------
  // Formatting the answers

  /** The whole answer line for a response, before it is bounded by the line buffer. */
  function Answer(response: Response): (r: seq<char>) {
    "{\"" + response.key + "\":" + response.value + "}\n"
  }

  /** Ximu3CommandRespond: what is written, the answer clipped to the object buffer. */
  function RespondText(sizes: Sizes, response: Response): (r: seq<char>)
    ensures r <= Answer(response)
    ensures sizes.objectSize > 0 ==> |r| < sizes.objectSize
    ensures sizes.objectSize > |Answer(response)| ==> r == Answer(response)
    ensures 0 < sizes.objectSize <= |Answer(response)| ==> |r| == sizes.objectSize - 1
  {
    Clipped(Answer(response), sizes.objectSize)
  }

  function Responded(sizes: Sizes, response: Response): Event {
    Wrote(response.interface, RespondText(sizes, response))
  }

  /** Ximu3CommandRespondError: the value `{"error":"..."}`, clipped to the value buffer. */
  function ErrorValue(sizes: Sizes, error: seq<char>): (r: seq<char>)
    ensures r <= "{\"error\":\"" + error + "\"}"
    ensures sizes.valueSize > 0 ==> |r| < sizes.valueSize
    ensures sizes.valueSize > |error| + 12 ==> r == "{\"error\":\"" + error + "\"}"
    ensures sizes.valueSize > 0 && |error| + 12 >= sizes.valueSize ==> |r| == sizes.valueSize - 1
  {
    Clipped("{\"error\":\"" + error + "\"}", sizes.valueSize)
  }

  function RespondedError(sizes: Sizes, response: Response, error: seq<char>): Event {
    Responded(sizes, response.(value := ErrorValue(sizes, error)))
  }

  /** Ximu3CommandRespondPing: the value naming the interface, the device name and the serial number. */
  function PingValue(sizes: Sizes, interfaceName: seq<char>, name: seq<char>, sn: seq<char>): (r: seq<char>)
    ensures r <= "{\"interface\":\"" + interfaceName + "\",\"name\":\"" + name + "\",\"sn\":\"" + sn + "\"}"
    ensures sizes.valueSize > 0 ==> |r| < sizes.valueSize
    ensures sizes.valueSize > |interfaceName| + |name| + |sn| + 34 ==>
      r == "{\"interface\":\"" + interfaceName + "\",\"name\":\"" + name + "\",\"sn\":\"" + sn + "\"}"
    ensures sizes.valueSize > 0 && |interfaceName| + |name| + |sn| + 34 >= sizes.valueSize ==> |r| == sizes.valueSize - 1
  {
    Clipped("{\"interface\":\"" + interfaceName + "\",\"name\":\"" + name + "\",\"sn\":\"" + sn + "\"}", sizes.valueSize)
  }

  /** Error: the message, clipped to the 256-byte local buffer, goes to the error hook if there is one. */
  function Report(env: Env, message: seq<char>): (r: seq<Event>)
    ensures |r| <= 1
    ensures r != [] <==> env.hooks.error
    ensures r != [] ==> r[0].Reported? && r[0].message <= message && |r[0].message| <= 255
    ensures r != [] && |message| <= 255 ==> r[0] == Reported(message)
    ensures r != [] && |message| > 255 ==> |r[0].message| == 255
  {
    if env.hooks.error then [Reported(Clipped(message, 256))] else []
  }

  /**
   * The answer of a response is a single line: when the object buffer is
   * larger than both the key and value buffers together with the six
   * characters of framing, nothing of a key and a value that fit their own
   * buffers is cut, and the written text ends in its one newline.
   */
  lemma AnswerIsOneLine(sizes: Sizes, response: Response)
    requires |response.key| < sizes.keySize && |response.value| < sizes.valueSize
    requires sizes.objectSize > sizes.keySize + sizes.valueSize + 4
    requires forall i :: 0 <= i < |response.key| ==> response.key[i] != '\n'
    requires forall i :: 0 <= i < |response.value| ==> response.value[i] != '\n'
    ensures var r := RespondText(sizes, response);
      && r == "{\"" + response.key + "\":" + response.value + "}\n"
      && r[|r| - 1] == '\n'
      && forall i :: 0 <= i < |r| - 1 ==> r[i] != '\n'
  {
    var r := RespondText(sizes, response);
    assert r == "{\"" + response.key + "\":" + response.value + "}\n";
    forall i | 0 <= i < |r| - 1
      ensures r[i] != '\n'
    {
      if 2 <= i < 2 + |response.key| {
        assert r[i] == response.key[i - 2];
      } else if 4 + |response.key| <= i < 4 + |response.key| + |response.value| {
        assert r[i] == response.value[i - 4 - |response.key|];
      }
    }
  }

  // ---------------------------------------------------------------------------
  // Parsing and dispatching one line

  /** What handling a line amounts to: the hook calls made, in order, and the store after. */
  datatype Outcome = Outcome(events: seq<Event>, store: Store)

  /**
   * A setting named by the key: a null value reads it; anything else writes
   * it, unless it is read-only and the override hook does not answer true;
   * a write the codec rejects answers the tokenizer's error, and one it
   * accepts calls the write epilogue and answers the value read back.
   */
  function SettingSpec(env: Env, st: Store, line: seq<char>, key: seq<char>, valueAt: nat, index: nat, response: Response): (o: Outcome)
    requires ValidEnv(env) && env.table.Some? && StoreOk(env, st) && index < |env.table.value|
    requires valueAt <= |line|
    ensures StoreOk(env, o.store)
  {
    var table := env.table.value;
    var isNull := env.tok.nullValue(line, valueAt);
    if isNull.Parsed? then
      Outcome([Responded(env.sizes, response.(value := GetValue(env.floats, table, st.values, env.sizes.valueSize, index)))], st)
    else
      var overrideReadOnly := env.hooks.overrideReadOnly == Some(true);
      if table[index].readOnly && !overrideReadOnly then
        Outcome([RespondedError(env.sizes, response, "Unable to write read-only setting")], st)
      else
        var written := SetKeyValueSpec(env.tok, env.floats, env.sizes.valueSize, table, st, key, line, isNull.next, overrideReadOnly);
        if written.error.JsonFailure? then
          Outcome([RespondedError(env.sizes, response, env.tok.errorText(written.error.code))], written.store)
        else
          Outcome((if env.hooks.writeEpilogue then [WriteEpilogueCalled(index)] else [])
                  + [Responded(env.sizes, response.(value := GetValue(env.floats, table, written.store.values, env.sizes.valueSize, index)))],
                  written.store)
  }

  /**
   * The three tiers of dispatch for a well-formed pair: the first command
   * whose key matches, else the first matching setting, else the unknown
   * hook, else the answer "Unknown command".
   */
  function DispatchSpec(env: Env, st: Store, line: seq<char>, key: seq<char>, valueAt: nat, response: Response): (o: Outcome)
    requires ValidEnv(env) && StoreOk(env, st) && valueAt <= |line|
    ensures StoreOk(env, o.store)
  {
    match FirstMatch(env.commands, key)
    case Some(command) => Outcome([CommandCalled(command, line, valueAt, response)], st)
    case None =>
      if env.table.Some? && FindIndex(env.table.value, key).Some? then
        SettingSpec(env, st, line, key, valueAt, FindIndex(env.table.value, key).value, response)
      else if env.hooks.unknown then
        Outcome([UnknownCalled(key, line, valueAt, response)], st)
      else
        Outcome([RespondedError(env.sizes, response, "Unknown command")], st)
  }

  /**
   * Parse: a line received on interface `iface` (named `name`) must be an
   * object start, a key, one value and the object end; any other line is
   * reported to the error hook and goes no further.
   */
  function ParseSpec(env: Env, iface: nat, name: seq<char>, st: Store, line: seq<char>): (o: Outcome)
    requires ValidEnv(env) && StoreOk(env, st)
    ensures StoreOk(env, o.store)
  {
    var start := env.tok.objectStart(line, 0);
    if start.Failed? then
      Outcome(Report(env, name + " receive error. Not a JSON object."), st)
    else
      var key := env.tok.key(line, start.next, env.sizes.keySize);
      if key.Failed? then
        Outcome(Report(env, name + " receive error. Unable able to parse key. " + env.tok.errorText(key.code) + "."), st)
      else
        var value := env.tok.value(line, key.next);
        if value.Failed? then
          Outcome(Report(env, name + " receive error. Unable able to parse value. " + env.tok.errorText(value.code) + "."), st)
        else
          var end := env.tok.objectEnd(line, value.next);
          if end.Failed? then
            Outcome(Report(env, name + " receive error. JSON object is not a single key/value pair."), st)
          else
            DispatchSpec(env, st, line, key.value, key.next, Response(iface, Clipped(key.value, env.sizes.keySize), "null"))
  }

  /** Parse accepts the line: an object start, a key, one value and the object end, in that order. */
  predicate WellFormed(env: Env, line: seq<char>) {
    var start := env.tok.objectStart(line, 0);
    start.Parsed? &&
    var key := env.tok.key(line, start.next, env.sizes.keySize);
    key.Parsed? &&
    var value := env.tok.value(line, key.next);
    value.Parsed? && env.tok.objectEnd(line, value.next).Parsed?
  }

  /** `data` is the answer to some response on interface `iface` under `key`, as Respond writes it. */
  ghost predicate AnswersKey(sizes: Sizes, iface: nat, key: seq<char>, data: seq<char>) {
    exists value: seq<char> :: data == RespondText(sizes, Response(iface, key, value))
  }

  /**
   * A malformed line is only reported: at most one call to the error hook
   * (exactly one when there is a hook), no answer, and the store untouched.
   */
  lemma MalformedLineOnlyReported(env: Env, iface: nat, name: seq<char>, st: Store, line: seq<char>)
    requires ValidEnv(env) && StoreOk(env, st) && !WellFormed(env, line)
    ensures var o := ParseSpec(env, iface, name, st, line);
      && o.store == st
      && |o.events| <= 1
      && (o.events != [] <==> env.hooks.error)
      && forall k :: 0 <= k < |o.events| ==> o.events[k].Reported?
  {
    var start := env.tok.objectStart(line, 0);
    if start.Parsed? {
      var key := env.tok.key(line, start.next, env.sizes.keySize);
      if key.Parsed? {
        var value := env.tok.value(line, key.next);
        if value.Parsed? {
          assert env.tok.objectEnd(line, value.next).Failed?;
        }
      }
    }
  }

  /** No key of `keys` matches `key`. */
  predicate Unmatched(keys: seq<seq<char>>, key: seq<char>) {
    forall c :: 0 <= c < |keys| ==> !KeysMatch(key, keys[c])
  }

  /**
   * The tiers of dispatch: a key that matches any command is handed to the
   * first matching command alone and never reaches the store; otherwise a
   * key that matches a setting is handled by the first matching setting;
   * the unknown hook is called exactly when the key matches neither a
   * command nor a setting and the hook is present; failing that too, the
   * answer is "Unknown command" and the store is untouched.
   */
  lemma DispatchPriority(env: Env, st: Store, line: seq<char>, key: seq<char>, valueAt: nat, response: Response, j: nat)
    requires ValidEnv(env) && StoreOk(env, st) && valueAt <= |line|
    ensures var o := DispatchSpec(env, st, line, key, valueAt, response);
      && (j < |env.commands| && KeysMatch(key, env.commands[j]) ==>
            o.store == st && |o.events| == 1 && o.events[0].CommandCalled? &&
            o.events[0].command <= j && KeysMatch(key, env.commands[o.events[0].command]))
      && (Unmatched(env.commands, key) && env.table.Some? && j < |env.table.value| && KeysMatch(key, env.table.value[j].key) ==>
            var index := FindIndex(env.table.value, key).value;
            index <= j && KeysMatch(key, env.table.value[index].key) &&
            o == SettingSpec(env, st, line, key, valueAt, index, response))
      && ((|o.events| == 1 && o.events[0].UnknownCalled?) <==>
            Unmatched(env.commands, key) && (env.table.Some? ==> Unmatched(Keys(env.table.value), key)) && env.hooks.unknown)
      && (Unmatched(env.commands, key) && (env.table.Some? ==> Unmatched(Keys(env.table.value), key)) && !env.hooks.unknown ==>
            o == Outcome([RespondedError(env.sizes, response, "Unknown command")], st))
  {
    var o := DispatchSpec(env, st, line, key, valueAt, response);
    if env.table.Some? && FindIndex(env.table.value, key).Some? && FirstMatch(env.commands, key).None? {
      var index := FindIndex(env.table.value, key).value;
      SettingAnswers(env, st, line, key, valueAt, index, response);
      assert Keys(env.table.value)[index] == env.table.value[index].key;
      if j < |env.table.value| && KeysMatch(key, env.table.value[j].key) {
        assert Keys(env.table.value)[j] == env.table.value[j].key;
      }
    }
  }

  /**
   * Reading and writing a setting: a null value reads it and leaves the
   * store as it was; a write to a read-only setting the override does not
   * unlock is answered with an error and leaves the store as it was; a value
   * the codec rejects is answered with the tokenizer's error, calls no
   * epilogue and leaves the store as it was; a write the codec accepts, even
   * one that leaves the value as it was, calls the write epilogue (when there
   * is one) and then answers the value read back from the new store. Whatever happens,
   * only the named field moves, the apply-pending invariant is kept, and the
   * bridge writes exactly one answer, to the response's interface, under the
   * response's key.
   */
  lemma SettingAnswers(env: Env, st: Store, line: seq<char>, key: seq<char>, valueAt: nat, index: nat, response: Response)
    requires ValidEnv(env) && env.table.Some? && StoreOk(env, st) && FindIndex(env.table.value, key) == Some(index)
    requires valueAt <= |line|
    ensures var o := SettingSpec(env, st, line, key, valueAt, index, response);
      var table := env.table.value;
      && Tracked(st, o.store)
      && (forall k :: 0 <= k < |table| && k != index ==>
            o.store.values[k] == st.values[k] && o.store.applyPendings[k] == st.applyPendings[k])
      && (env.tok.nullValue(line, valueAt).Parsed? ==>
            o.store == st &&
            o.events == [Responded(env.sizes, response.(value := GetValue(env.floats, table, st.values, env.sizes.valueSize, index)))])
      && (env.tok.nullValue(line, valueAt).Failed? && table[index].readOnly && env.hooks.overrideReadOnly != Some(true) ==>
            o.store == st && o.events == [RespondedError(env.sizes, response, "Unable to write read-only setting")])
      && (var isNull := env.tok.nullValue(line, valueAt);
          var overrideReadOnly := env.hooks.overrideReadOnly == Some(true);
          isNull.Failed? && (!table[index].readOnly || overrideReadOnly) ==>
            var written := SetKeyValueSpec(env.tok, env.floats, env.sizes.valueSize, table, st, key, line, isNull.next, overrideReadOnly);
            && (written.error.JsonFailure? ==>
                  o.store == st && o.events == [RespondedError(env.sizes, response, env.tok.errorText(written.error.code))])
            && (written.error == JsonOk ==>
                  o.store == written.store &&
                  o.events == (if env.hooks.writeEpilogue then [WriteEpilogueCalled(index)] else []) +
                              [Responded(env.sizes, response.(value := GetValue(env.floats, table, o.store.values, env.sizes.valueSize, index)))]))
      && o.events != [] && o.events[|o.events| - 1].Wrote?
      && o.events[|o.events| - 1].interface == response.interface
      && AnswersKey(env.sizes, response.interface, response.key, o.events[|o.events| - 1].data)
      && forall k :: 0 <= k < |o.events| - 1 ==> o.events[k] == WriteEpilogueCalled(index)
  {
    var table := env.table.value;
    var isNull := env.tok.nullValue(line, valueAt);
    var o := SettingSpec(env, st, line, key, valueAt, index, response);
    var last := o.events[|o.events| - 1];
    if isNull.Parsed? {
      assert last.data == RespondText(env.sizes, Response(response.interface, response.key, GetValue(env.floats, table, st.values, env.sizes.valueSize, index)));
    } else {
      var overrideReadOnly := env.hooks.overrideReadOnly == Some(true);
      if table[index].readOnly && !overrideReadOnly {
        assert last.data == RespondText(env.sizes, Response(response.interface, response.key, ErrorValue(env.sizes, "Unable to write read-only setting")));
      } else {
        var written := SetKeyValueSpec(env.tok, env.floats, env.sizes.valueSize, table, st, key, line, isNull.next, overrideReadOnly);
        SetKeyValueEffect(env.tok, env.floats, env.sizes.valueSize, table, st, key, line, isNull.next, overrideReadOnly);
        if written.error.JsonFailure? {
          assert last.data == RespondText(env.sizes, Response(response.interface, response.key, ErrorValue(env.sizes, env.tok.errorText(written.error.code))));
        } else {
          assert last.data == RespondText(env.sizes, Response(response.interface, response.key, GetValue(env.floats, table, written.store.values, env.sizes.valueSize, index)));
        }
      }
    }
  }

  /** The key Parse reads from a well-formed line. */
  function ParsedKey(env: Env, line: seq<char>): seq<char>
    requires WellFormed(env, line)
  {
    env.tok.key(line, env.tok.objectStart(line, 0).next, env.sizes.keySize).value
  }

  /**
   * Every answer the bridge itself writes for a line is `{"key":value}\n`,
   * clipped to the line buffer, on the interface the line came from and
   * under the key the line named; and it writes at most one answer per line.
   */
  lemma ParseAnswers(env: Env, iface: nat, name: seq<char>, st: Store, line: seq<char>)
    requires ValidEnv(env) && StoreOk(env, st)
    ensures var o := ParseSpec(env, iface, name, st, line);
      && (forall k, l :: 0 <= k < l < |o.events| && o.events[k].Wrote? ==> !o.events[l].Wrote?)
      && forall k :: 0 <= k < |o.events| && o.events[k].Wrote? ==>
           && WellFormed(env, line)
           && o.events[k].interface == iface
           && AnswersKey(env.sizes, iface, Clipped(ParsedKey(env, line), env.sizes.keySize), o.events[k].data)
  {
    if !WellFormed(env, line) {
      MalformedLineOnlyReported(env, iface, name, st, line);
    } else {
      var start := env.tok.objectStart(line, 0);
      var key := env.tok.key(line, start.next, env.sizes.keySize);
      var response := Response(iface, Clipped(key.value, env.sizes.keySize), "null");
      var o := ParseSpec(env, iface, name, st, line);
      assert o == DispatchSpec(env, st, line, key.value, key.next, response);
      if FirstMatch(env.commands, key.value).None? {
        if env.table.Some? && FindIndex(env.table.value, key.value).Some? {
          SettingAnswers(env, st, line, key.value, key.next, FindIndex(env.table.value, key.value).value, response);
        } else if !env.hooks.unknown {
          assert o.events[0].data == RespondText(env.sizes, Response(iface, response.key, ErrorValue(env.sizes, "Unknown command")));
        }
      }
    }
  }

  /** Handling a line keeps the apply-pending invariant of the store. */
  lemma ParseTracked(env: Env, iface: nat, name: seq<char>, st: Store, line: seq<char>)
    requires ValidEnv(env) && env.table.Some? && StoreOk(env, st)
    ensures Tracked(st, ParseSpec(env, iface, name, st, line).store)
  {
    if WellFormed(env, line) {
      var start := env.tok.objectStart(line, 0);
      var key := env.tok.key(line, start.next, env.sizes.keySize);
      if FirstMatch(env.commands, key.value).None? && FindIndex(env.table.value, key.value).Some? {
        var index := FindIndex(env.table.value, key.value).value;
        SettingAnswers(env, st, line, key.value, key.next, index, Response(iface, Clipped(key.value, env.sizes.keySize), "null"));
      }
    }
  }

  // ---------------------------------------------------------------------------
  // Receiving: framing bytes into lines

  /** What the receive loop makes of the bytes: a line to parse, or an overrun. */
  datatype Frame = Line(text: seq<char>) | Overrun

  predicate NoNewline(s: seq<char>) {
    forall i :: 0 <= i < |s| ==> s[i] != '\n'
  }

  /**
   * The receive loop's framing, with a line buffer of `cap` characters that
   * already holds `pending`: each '\n' ends a line, which is read from the
   * buffer as a C string; a byte that fills the buffer is an overrun. Both
   * empty the buffer, and nothing is skipped after an overrun. Returns the
   * frames and what is left in the buffer.
   */
  function Framing(cap: nat, pending: seq<char>, bytes: seq<char>): (r: (seq<Frame>, seq<char>))
    requires |pending| < cap
    ensures |r.1| < cap
    decreases |bytes|
  {
    if bytes == [] then ([], pending)
    else
      var before := Framing(cap, pending, bytes[..|bytes| - 1]);
      var c := bytes[|bytes| - 1];
      if c == '\n' then (before.0 + [Line(Terminated(before.1))], [])
      else if |before.1| + 1 >= cap then (before.0 + [Overrun], [])
      else (before.0, before.1 + [c])
  }

  /** Framing two stretches of bytes one after the other is framing them together. */
  lemma {:induction false} FramingAppend(cap: nat, pending: seq<char>, a: seq<char>, b: seq<char>)
    requires |pending| < cap
    ensures var first := Framing(cap, pending, a);
      var second := Framing(cap, first.1, b);
      Framing(cap, pending, a + b) == (first.0 + second.0, second.1)
    decreases |b|
  {
    if b == [] {
      assert a + b == a;
      var first := Framing(cap, pending, a);
      assert Framing(cap, first.1, b) == ([], first.1);
      assert first.0 + [] == first.0;
    } else {
      var b' := b[..|b| - 1];
      var c := b[|b| - 1];
      assert (a + b)[..|a + b| - 1] == a + b';
      assert (a + b)[|a + b| - 1] == c;
      FramingAppend(cap, pending, a, b');
      var first := Framing(cap, pending, a);
      var second' := Framing(cap, first.1, b');
      var whole' := Framing(cap, pending, a + b');
      assert whole' == (first.0 + second'.0, second'.1);
      var frame := if c == '\n' then [Line(Terminated(second'.1))]
        else if |second'.1| + 1 >= cap then [Overrun] else [];
      assert Framing(cap, first.1, b).0 == second'.0 + frame;
      assert Framing(cap, pending, a + b).0 == whole'.0 + frame;
      assert first.0 + second'.0 + frame == first.0 + (second'.0 + frame);
    }
  }

  /** Bytes without a newline that fit beside what is pending are only buffered. */
  lemma {:induction false} FramingBuffers(cap: nat, pending: seq<char>, t: seq<char>)
    requires |pending| + |t| < cap && NoNewline(t)
    ensures Framing(cap, pending, t) == ([], pending + t)
    decreases |t|
  {
    if t == [] {
      assert pending + t == pending;
    } else {
      var t' := t[..|t| - 1];
      FramingBuffers(cap, pending, t');
      assert Framing(cap, pending, t') == ([], pending + t');
      assert t[|t| - 1] != '\n';
      assert pending + t' + [t[|t| - 1]] == pending + t;
      assert |pending + t'| + 1 < cap;
      assert Framing(cap, pending, t) == ([], pending + t' + [t[|t| - 1]]);
    }
  }

  /** A line of fewer than `cap` characters, sent on an empty buffer, is dispatched exactly. */
  lemma ShortLineDispatched(cap: nat, t: seq<char>)
    requires |t| < cap && NoNewline(t)
    ensures Framing(cap, [], t + ['\n']) == ([Line(Terminated(t))], [])
  {
    FramingBuffers(cap, [], t);
    assert [] + t == t;
    var bytes := t + ['\n'];
    assert bytes[..|bytes| - 1] == t && bytes[|bytes| - 1] == '\n';
    assert Framing(cap, [], bytes).0 == [] + [Line(Terminated(t))] == [Line(Terminated(t))];
    assert Framing(cap, [], bytes).1 == [];
  }

  /** `cap` bytes without a newline, sent on an empty buffer, are exactly one overrun and leave it empty. */
  lemma OverrunOnce(cap: nat, t: seq<char>)
    requires cap >= 1 && |t| == cap && NoNewline(t)
    ensures Framing(cap, [], t) == ([Overrun], [])
  {
    var t' := t[..cap - 1];
    FramingBuffers(cap, [], t');
    assert [] + t' == t';
    assert Framing(cap, [], t).0 == [] + [Overrun] == [Overrun];
    assert Framing(cap, [], t).1 == [];
  }

  /**
   * There is no resynchronisation after an overrun: the bytes that follow
   * an over-long stretch are buffered as a fresh line, so the tail of an
   * over-long line is parsed as a line of its own.
   */
  lemma NoResync(cap: nat, x: seq<char>, y: seq<char>)
    requires cap >= 1 && |x| == cap && NoNewline(x) && |y| < cap && NoNewline(y)
    ensures Framing(cap, [], x + y + ['\n']) == ([Overrun, Line(Terminated(y))], [])
  {
    OverrunOnce(cap, x);
    ShortLineDispatched(cap, y);
    FramingAppend(cap, [], x, y + ['\n']);
    assert x + y + ['\n'] == x + (y + ['\n']);
    assert [Overrun] + [Line(Terminated(y))] == [Overrun, Line(Terminated(y))];
  }

  // ---------------------------------------------------------------------------
  // Receiving: the byte-by-byte machine

  /** The receive state of one interface (its buffered characters) with the log and the store. */
  datatype Machine = Machine(pending: seq<char>, events: seq<Event>, store: Store)

  /**
   * What the receive loop does with a complete line and with an overrun, as
   * seen from the framing: `line` maps the store and the line's text to the
   * outcome of handling it; `overrun` is the hook calls an overrun makes.
   */
  datatype Handler = Handler(line: (Store, seq<char>) -> Outcome, overrun: seq<Event>)

  /** One byte of Receive on a line buffer of `cap` characters, as a function of the state before it. */
  function Feed(cap: nat, handler: Handler, m: Machine, c: char): (r: Machine)
    ensures cap > 0 ==> |r.pending| < cap
  {
    if c == '\n' then
      var o := handler.line(m.store, Terminated(m.pending));
      Machine([], m.events + o.events, o.store)
    else if |m.pending| + 1 >= cap then
      Machine([], m.events + handler.overrun, m.store)
    else
      Machine(m.pending + [c], m.events, m.store)
  }

  /** Receive over a stretch of bytes: Feed, byte after byte. */
  function FeedAll(cap: nat, handler: Handler, m: Machine, bytes: seq<char>): (r: Machine)
    ensures |m.pending| < cap ==> |r.pending| < cap
    decreases |bytes|
  {
    if bytes == [] then m
    else Feed(cap, handler, FeedAll(cap, handler, m, bytes[..|bytes| - 1]), bytes[|bytes| - 1])
  }

  /** Handling a sequence of frames in order. */
  function Handle(handler: Handler, st: Store, frames: seq<Frame>): (o: Outcome)
    decreases |frames|
  {
    if frames == [] then Outcome([], st)
    else
      var before := Handle(handler, st, frames[..|frames| - 1]);
      match frames[|frames| - 1]
      case Line(text) =>
        var o := handler.line(before.store, text);
        Outcome(before.events + o.events, o.store)
      case Overrun =>
        Outcome(before.events + handler.overrun, before.store)
  }

  /**
   * Receive is framing followed by handling: what stays buffered depends on
   * the bytes alone, and the hook calls and the store are those of handling
   * the frames in order.
   */
  lemma {:induction false} FeedAllFrames(cap: nat, handler: Handler, m: Machine, bytes: seq<char>)
    requires |m.pending| < cap
    ensures var f := Framing(cap, m.pending, bytes);
      var o := Handle(handler, m.store, f.0);
      FeedAll(cap, handler, m, bytes) == Machine(f.1, m.events + o.events, o.store)
    decreases |bytes|
  {
    if bytes != [] {
      var prefix, c := bytes[..|bytes| - 1], bytes[|bytes| - 1];
      FeedAllFrames(cap, handler, m, prefix);
      assert bytes == prefix + [c];
      FeedStepFrames(cap, handler, m, prefix, c);
    } else {
      assert m.events + [] == m.events;
    }
  }

  /** The inductive step of FeedAllFrames: one more byte, given the claim for the bytes before it. */
  lemma FeedStepFrames(cap: nat, handler: Handler, m: Machine, prefix: seq<char>, c: char)
    requires |m.pending| < cap
    requires var f := Framing(cap, m.pending, prefix);
      var o := Handle(handler, m.store, f.0);
      FeedAll(cap, handler, m, prefix) == Machine(f.1, m.events + o.events, o.store)
    ensures var f := Framing(cap, m.pending, prefix + [c]);
      var o := Handle(handler, m.store, f.0);
      FeedAll(cap, handler, m, prefix + [c]) == Machine(f.1, m.events + o.events, o.store)
  {
    var bytes := prefix + [c];
    assert bytes[..|bytes| - 1] == prefix && bytes[|bytes| - 1] == c;
    var f := Framing(cap, m.pending, prefix);
    var o := Handle(handler, m.store, f.0);
    var g := Framing(cap, m.pending, bytes);
    var before := FeedAll(cap, handler, m, prefix);
    assert FeedAll(cap, handler, m, bytes) == Feed(cap, handler, before, c);
    if c == '\n' {
      assert g == (f.0 + [Line(Terminated(f.1))], []);
      HandleSnoc(handler, m.store, f.0, Line(Terminated(f.1)));
      var p := handler.line(o.store, Terminated(f.1));
      assert m.events + o.events + p.events == m.events + (o.events + p.events);
    } else if |f.1| + 1 >= cap {
      assert g == (f.0 + [Overrun], []);
      HandleSnoc(handler, m.store, f.0, Overrun);
      assert m.events + o.events + handler.overrun == m.events + (o.events + handler.overrun);
    } else {
      assert g == (f.0, f.1 + [c]);
    }
  }

  /** Handling one more frame is handling the frames before it and then that frame. */
  lemma HandleSnoc(handler: Handler, st: Store, frames: seq<Frame>, frame: Frame)
    ensures var o := Handle(handler, st, frames);
      Handle(handler, st, frames + [frame]) ==
        match frame
        case Line(text) => Outcome(o.events + handler.line(o.store, text).events, handler.line(o.store, text).store)
        case Overrun => Outcome(o.events + handler.overrun, o.store)
  {
    var all := frames + [frame];
    assert all[..|all| - 1] == frames;
  }

  /** Receive over two stretches of bytes one after the other is Receive over them together. */
  lemma {:induction false} FeedAllAppend(cap: nat, handler: Handler, m: Machine, a: seq<char>, b: seq<char>)
    requires |m.pending| < cap
    ensures FeedAll(cap, handler, m, a + b) == FeedAll(cap, handler, FeedAll(cap, handler, m, a), b)
    decreases |b|
  {
    if b == [] {
      assert a + b == a;
    } else {
      assert (a + b)[..|a + b| - 1] == a + b[..|b| - 1];
      assert (a + b)[|a + b| - 1] == b[|b| - 1];
      FeedAllAppend(cap, handler, m, a, b[..|b| - 1]);
    }
  }

  /**
   * The bridge's handler for interface `iface`: parse and dispatch a line,
   * report an overrun. (The handler is total; it is only ever applied to a
   * valid configuration and a store laid out as its table says.)
   */
  ghost function BridgeHandler(env: Env, iface: nat, name: seq<char>): (h: Handler)
    ensures h.overrun == Report(env, OverrunMessage(name))
    ensures ValidEnv(env) ==> forall st, line :: StoreOk(env, st) ==> h.line(st, line) == ParseSpec(env, iface, name, st, line)
  {
    Handler((st: Store, line: seq<char>) =>
              if ValidEnv(env) && StoreOk(env, st) then ParseSpec(env, iface, name, st, line) else Outcome([], st),
            Report(env, OverrunMessage(name)))
  }

  function OverrunMessage(name: seq<char>): seq<char> {
    name + " receive error. Buffer overrun."
  }

  /** The bytes a sequence of `read` calls returned, in order. */
  function Concat(chunks: seq<seq<char>>): (r: seq<char>)
    decreases |chunks|
  {
    if chunks == [] then [] else Concat(chunks[..|chunks| - 1]) + chunks[|chunks| - 1]
  }

  // ---------------------------------------------------------------------------
  // Servicing every interface

  /** The receive state of every interface, with the log and the store. */
  datatype World = World(pendings: seq<seq<char>>, events: seq<Event>, store: Store)

  predicate PendingsFit(cap: nat, pendings: seq<seq<char>>) {
    forall i :: 0 <= i < |pendings| ==> |pendings[i]| < cap
  }

  /**
   * Ximu3CommandTasks as a function: interfaces 0 to n - 1 receive, in
   * order, each its own bytes through its own handler; the log and the store
   * thread through them.
   */
  ghost function Service(cap: nat, env: Env, names: seq<seq<char>>, w: World, inputs: seq<seq<char>>, n: nat): (r: World)
    requires n <= |w.pendings| == |names| == |inputs|
    ensures |r.pendings| == |w.pendings|
    ensures PendingsFit(cap, w.pendings) ==> PendingsFit(cap, r.pendings)
    decreases n, 1
  {
    if n == 0 then w else Turn(cap, env, names, w, inputs, n - 1)
  }

  /**
   * Interface `i`'s turn, after the interfaces before it: it runs its
   * receive machine on its own bytes from its own line buffer and the shared
   * log and store.
   */
  ghost function Turn(cap: nat, env: Env, names: seq<seq<char>>, w: World, inputs: seq<seq<char>>, i: nat): (r: World)
    requires i < |w.pendings| == |names| == |inputs|
    ensures |r.pendings| == |w.pendings|
    ensures PendingsFit(cap, w.pendings) ==> PendingsFit(cap, r.pendings)
    decreases i + 1, 0
  {
    var before := Service(cap, env, names, w, inputs, i);
    var m := FeedAll(cap, BridgeHandler(env, i, names[i]), Machine(before.pendings[i], before.events, before.store), inputs[i]);
    World(before.pendings[i := m.pending], m.events, m.store)
  }

  /**
   * Servicing the interfaces touches each line buffer through its own bytes
   * alone: afterwards interface `j` holds what framing its own input on its
   * own earlier contents leaves, whatever the other interfaces received.
   */
  lemma {:induction false} ServicePending(cap: nat, env: Env, names: seq<seq<char>>, w: World, inputs: seq<seq<char>>, n: nat, j: nat)
    requires PendingsFit(cap, w.pendings)
    requires n <= |w.pendings| == |names| == |inputs| && j < |w.pendings|
    ensures Service(cap, env, names, w, inputs, n).pendings[j] ==
      if j < n then Framing(cap, w.pendings[j], inputs[j]).1 else w.pendings[j]
    decreases n
  {
    if n > 0 {
      ServicePending(cap, env, names, w, inputs, n - 1, j);
      var before := Service(cap, env, names, w, inputs, n - 1);
      FeedAllFrames(cap, BridgeHandler(env, n - 1, names[n - 1]), Machine(before.pendings[n - 1], before.events, before.store), inputs[n - 1]);
    }
  }

  /** However many bytes an interface receives, the apply-pending invariant holds between the store before and after. */
  lemma {:induction false} FeedAllTracked(cap: nat, env: Env, iface: nat, name: seq<char>, m: Machine, bytes: seq<char>)
    requires ValidEnv(env) && env.table.Some? && StoreOk(env, m.store)
    ensures var r := FeedAll(cap, BridgeHandler(env, iface, name), m, bytes);
      StoreOk(env, r.store) && Tracked(m.store, r.store)
    decreases |bytes|
  {
    var h := BridgeHandler(env, iface, name);
    if bytes != [] {
      var prefix := bytes[..|bytes| - 1];
      FeedAllTracked(cap, env, iface, name, m, prefix);
      var mid := FeedAll(cap, h, m, prefix);
      if bytes[|bytes| - 1] == '\n' {
        ParseTracked(env, iface, name, mid.store, Terminated(mid.pending));
        TrackedTransitive(m.store, mid.store, FeedAll(cap, h, m, bytes).store);
      }
    }
  }

  /** Servicing the interfaces keeps the apply-pending invariant of the shared store. */
  lemma {:induction false} ServiceTracked(cap: nat, env: Env, names: seq<seq<char>>, w: World, inputs: seq<seq<char>>, n: nat)
    requires ValidEnv(env) && env.table.Some? && StoreOk(env, w.store)
    requires n <= |w.pendings| == |names| == |inputs|
    ensures var r := Service(cap, env, names, w, inputs, n);
      StoreOk(env, r.store) && Tracked(w.store, r.store)
    decreases n
  {
    if n > 0 {
      ServiceTracked(cap, env, names, w, inputs, n - 1);
      var before := Service(cap, env, names, w, inputs, n - 1);
      var m := Machine(before.pendings[n - 1], before.events, before.store);
      FeedAllTracked(cap, env, n - 1, names[n - 1], m, inputs[n - 1]);
      var after := FeedAll(cap, BridgeHandler(env, n - 1, names[n - 1]), m, inputs[n - 1]);
      assert Service(cap, env, names, w, inputs, n).store == after.store;
      TrackedTransitive(w.store, before.store, after.store);
    }
  }

  // ---------------------------------------------------------------------------
  // The bridge

  /** Ximu3CommandInterface: a name, and a line buffer with its fill index. */
  class Interface {
    const name: seq<char>
    const buffer: array<char>
    var index: nat

    constructor (name: seq<char>, size: nat)
      requires size >= 1
      ensures this.name == name && buffer.Length == size && index == 0 && fresh(buffer)
    {
      this.name := name;
      buffer := new char[size](_ => '\0');
      index := 0;
    }
  }

  /**
   * Ximu3CommandBridge. The interfaces, the command map, the settings store
   * and the hooks are fixed; `events` logs every call to a hook.
   */
  class Bridge {
    const interfaces: seq<Interface>
    const commands: seq<seq<char>>
    const settings: Settings?
    const tok: Tokenizer
    const floats: FloatSupport
    const sizes: Sizes
    const hooks: Hooks
    var events: seq<Event>
    /** The interfaces and their line buffers. */
    ghost const Repr: set<object>

    function Environment(): Env {
      Env(tok, floats, sizes, commands, if settings != null then Some(settings.table) else None, hooks)
    }

    function StoreOf(): Store
      reads settings
    {
      if settings != null then settings.State() else Store([], [])
    }


    function Names(): (names: seq<seq<char>>)
      ensures |names| == |interfaces| && forall i :: 0 <= i < |interfaces| ==> names[i] == interfaces[i].name
    {
      seq(|interfaces|, i requires 0 <= i < |interfaces| => interfaces[i].name)
    }

    /** The configuration is one the bridge can run with; it is fixed at construction. */
    ghost predicate Configured() {
      ValidEnv(Environment())
    }

    /** The mutable state is consistent with the configuration. */
    ghost predicate Valid()
      reads this, settings, interfaces
    {
      && (settings != null ==> settings.Valid())
      && (forall i :: 0 <= i < |interfaces| ==> interfaces[i] in Repr && interfaces[i].buffer in Repr)
      && (forall i :: 0 <= i < |interfaces| ==>
            interfaces[i].buffer.Length == sizes.objectSize && interfaces[i].index < sizes.objectSize && NoNul(interfaces[i].name))
      && (forall i, j :: 0 <= i < j < |interfaces| ==> interfaces[i] != interfaces[j] && interfaces[i].buffer != interfaces[j].buffer)
    }

    /** What interface `i` has buffered of the line it is receiving. */
    ghost function Pending(i: nat): seq<char>
      requires i < |interfaces| && interfaces[i].index <= interfaces[i].buffer.Length
      reads interfaces[i], interfaces[i].buffer
    {
      interfaces[i].buffer[..interfaces[i].index]
    }

    ghost function Pendings(): (r: seq<seq<char>>)
      requires forall i :: 0 <= i < |interfaces| ==>
        interfaces[i] in Repr && interfaces[i].buffer in Repr && interfaces[i].index <= interfaces[i].buffer.Length
      reads Repr
      ensures |r| == |interfaces| && forall i :: 0 <= i < |interfaces| ==> r[i] == Pending(i)
    {
      seq(|interfaces|, i requires 0 <= i < |interfaces| && interfaces[i].index <= interfaces[i].buffer.Length
                          reads if 0 <= i < |interfaces| then {interfaces[i], interfaces[i].buffer} else {} => Pending(i))
    }

    constructor (interfaces: seq<Interface>, commands: seq<seq<char>>, settings: Settings?,
                 tok: Tokenizer, floats: FloatSupport, sizes: Sizes, hooks: Hooks)
      requires ValidEnv(Env(tok, floats, sizes, commands, if settings != null then Some(settings.table) else None, hooks))
      requires settings != null ==> settings.Valid()
      requires forall i :: 0 <= i < |interfaces| ==>
        interfaces[i].buffer.Length == sizes.objectSize && interfaces[i].index < sizes.objectSize && NoNul(interfaces[i].name)
      requires forall i, j :: 0 <= i < j < |interfaces| ==> interfaces[i] != interfaces[j] && interfaces[i].buffer != interfaces[j].buffer
      ensures Configured() && Valid() && events == []
      ensures this.interfaces == interfaces && this.commands == commands && this.settings == settings
      ensures this.tok == tok && this.floats == floats && this.sizes == sizes && this.hooks == hooks
    {
      this.interfaces := interfaces;
      this.commands := commands;
      this.settings := settings;
      this.tok := tok;
      this.floats := floats;
      this.sizes := sizes;
      this.hooks := hooks;
      events := [];
      Repr := (set i | 0 <= i < |interfaces| :: interfaces[i] as object) + (set i | 0 <= i < |interfaces| :: interfaces[i].buffer as object);
    }

    /** Error: formats the message into a 256-byte buffer and hands it to the error hook, if any. */
    method Error(message: seq<char>)
      modifies this
      ensures events == old(events) + Report(Environment(), message)
    {
      if !hooks.error {
        return;
      }
      var text := Clipped(message, 256);
      events := events + [Reported(text)];
    }

    /** Ximu3CommandRespond: formats the answer into an object-sized buffer and writes it to the interface. */
    method Respond(response: Response)
      modifies this
      ensures events == old(events) + [Responded(sizes, response)]
    {
      var text := Clipped("{\"" + response.key + "\":" + response.value + "}\n", sizes.objectSize);
      events := events + [Wrote(response.interface, text)];
    }

    /** Ximu3CommandRespondError: the value becomes `{"error":"..."}`, then the response is written. */
    method RespondError(response: Response, error: seq<char>) returns (updated: Response)
      modifies this
      ensures updated == response.(value := ErrorValue(sizes, error))
      ensures events == old(events) + [RespondedError(sizes, response, error)]
    {
      updated := response.(value := Clipped("{\"error\":\"" + error + "\"}", sizes.valueSize));
      Respond(updated);
    }

    /** Ximu3CommandRespondPing: the value names the interface, the device and its serial number. */
    method RespondPing(response: Response, name: seq<char>, sn: seq<char>) returns (updated: Response)
      requires response.interface < |interfaces|
      modifies this
      ensures updated == response.(value := PingValue(sizes, interfaces[response.interface].name, name, sn))
      ensures events == old(events) + [Responded(sizes, updated)]
    {
      var interfaceName := interfaces[response.interface].name;
      updated := response.(value := Clipped("{\"interface\":\"" + interfaceName + "\",\"name\":\"" + name + "\",\"sn\":\"" + sn + "\"}", sizes.valueSize));
      Respond(updated);
    }

    /**
     * Ximu3CommandParseString: parses a string at `valueAt` into a
     * destination of `destinationSize` characters; on failure answers the
     * tokenizer's error and returns 1. `updated` is the caller's response as
     * the call leaves it: its value holds the error object after a failure.
     */
    method ParseString(line: seq<char>, valueAt: nat, response: Response, destinationSize: nat)
      returns (result: int, next: nat, destination: seq<char>, updated: Response)
      modifies this
      ensures var p := tok.stringValue(line, valueAt, destinationSize);
        && next == p.next
        && (result == 0 <==> p.Parsed?)
        && (p.Parsed? ==> result == 0 && updated == response && destination == p.value && events == old(events))
        && (p.Failed? ==> result == 1 && updated == response.(value := ErrorValue(sizes, tok.errorText(p.code))) && events == old(events) + [RespondedError(sizes, response, tok.errorText(p.code))])
    {
      var p := tok.stringValue(line, valueAt, destinationSize);
      if p.Failed? {
        updated := RespondError(response, tok.errorText(p.code));
        return 1, p.next, [], updated;
      }
      return 0, p.next, p.value, response;
    }

    /** Ximu3CommandParseNumber: as ParseString, for a number (the four bytes of a float). */
    method ParseNumber(line: seq<char>, valueAt: nat, response: Response)
      returns (result: int, next: nat, number: seq<byte>, updated: Response)
      modifies this
      ensures var p := tok.number(line, valueAt);
        && next == p.next
        && (result == 0 <==> p.Parsed?)
        && (p.Parsed? ==> result == 0 && updated == response && number == p.value && events == old(events))
        && (p.Failed? ==> result == 1 && updated == response.(value := ErrorValue(sizes, tok.errorText(p.code))) && events == old(events) + [RespondedError(sizes, response, tok.errorText(p.code))])
    {
      var p := tok.number(line, valueAt);
      if p.Failed? {
        updated := RespondError(response, tok.errorText(p.code));
        return 1, p.next, [], updated;
      }
      return 0, p.next, p.value, response;
    }

    /** Ximu3CommandParseBoolean: as ParseString, for a boolean. */
    method ParseBoolean(line: seq<char>, valueAt: nat, response: Response)
      returns (result: int, next: nat, boolean: bool, updated: Response)
      modifies this
      ensures var p := tok.boolean(line, valueAt);
        && next == p.next
        && (result == 0 <==> p.Parsed?)
        && (p.Parsed? ==> result == 0 && updated == response && boolean == p.value && events == old(events))
        && (p.Failed? ==> result == 1 && updated == response.(value := ErrorValue(sizes, tok.errorText(p.code))) && events == old(events) + [RespondedError(sizes, response, tok.errorText(p.code))])
    {
      var p := tok.boolean(line, valueAt);
      if p.Failed? {
        updated := RespondError(response, tok.errorText(p.code));
        return 1, p.next, false, updated;
      }
      return 0, p.next, p.value, response;
    }

    /** Ximu3CommandParseNull: as ParseString, for null. */
    method ParseNull(line: seq<char>, valueAt: nat, response: Response)
      returns (result: int, next: nat, updated: Response)
      modifies this
      ensures var p := tok.nullValue(line, valueAt);
        && next == p.next
        && (result == 0 <==> p.Parsed?)
        && (p.Parsed? ==> result == 0 && updated == response && events == old(events))
        && (p.Failed? ==> result == 1 && updated == response.(value := ErrorValue(sizes, tok.errorText(p.code))) && events == old(events) + [RespondedError(sizes, response, tok.errorText(p.code))])
    {
      var p := tok.nullValue(line, valueAt);
      if p.Failed? {
        updated := RespondError(response, tok.errorText(p.code));
        return 1, p.next, updated;
      }
      return 0, p.next, response;
    }

    /**
     * Parse: handles one received line, the C string the line buffer holds,
     * on interface `iface`.
     */
    method Parse(iface: nat, line: seq<char>)
      requires Configured() && Valid() && iface < |interfaces|
      modifies this, settings
      ensures settings != null ==> settings.calls == old(settings.calls)
      ensures Valid()
      ensures var o := ParseSpec(Environment(), iface, interfaces[iface].name, old(StoreOf()), line);
        events == old(events) + o.events && StoreOf() == o.store
    {
      var name := interfaces[iface].name;

      // Parse object start
      var start := tok.objectStart(line, 0);
      if start.Failed? {
        Error(name + " receive error. Not a JSON object.");
        return;
      }

      // Parse key
      var key := tok.key(line, start.next, sizes.keySize);
      if key.Failed? {
        Error(name + " receive error. Unable able to parse key. " + tok.errorText(key.code) + ".");
        return;
      }

      // Parse value
      var value := key.next;
      var skipped := tok.value(line, value);
      if skipped.Failed? {
        Error(name + " receive error. Unable able to parse value. " + tok.errorText(skipped.code) + ".");
        return;
      }

      // Parse object end
      var end := tok.objectEnd(line, skipped.next);
      if end.Failed? {
        Error(name + " receive error. JSON object is not a single key/value pair.");
        return;
      }

      // Initialise response
      var response := Response(iface, Clipped(key.value, sizes.keySize), "null");
      Dispatch(line, key.value, value, response);
    }

    /** The dispatch tiers of Parse, once the line has been read as a single pair. */
    method Dispatch(line: seq<char>, key: seq<char>, value: nat, response: Response)
      requires Configured() && Valid() && NoNul(key) && value <= |line|
      modifies this, settings
      ensures settings != null ==> settings.calls == old(settings.calls)
      ensures Valid()
      ensures var o := DispatchSpec(Environment(), old(StoreOf()), line, key, value, response);
        events == old(events) + o.events && StoreOf() == o.store
    {
      // Commands
      for index := 0 to |commands|
        invariant Valid() && events == old(events) && StoreOf() == old(StoreOf())
        invariant settings != null ==> settings.calls == old(settings.calls)
        invariant forall j :: 0 <= j < index ==> !KeysMatch(key, commands[j])
      {
        var matches := KeyCompare.KeyCompare(key, commands[index]);
        if matches {
          FirstMatchAt(commands, key, index);
          events := events + [CommandCalled(index, line, value, response)];
          return;
        }
      }

      // Settings
      if settings != null {
        var result, index := GetIndex(settings, 0, key);
        if result == 0 {
          DispatchSetting(line, key, value, index, response);
          return;
        }
      }

      // Unknown command
      if hooks.unknown {
        events := events + [UnknownCalled(key, line, value, response)];
        return;
      }
      var _ := RespondError(response, "Unknown command");
    }

    /** The settings tier of Parse: read, or write and read back, setting `index`. */
    method DispatchSetting(line: seq<char>, key: seq<char>, value: nat, index: nat, response: Response)
      requires Configured() && Valid() && settings != null && NoNul(key) && value <= |line|
      requires FindIndex(settings.table, key) == Some(index)
      modifies this, settings
      ensures settings != null ==> settings.calls == old(settings.calls)
      ensures Valid()
      ensures var o := SettingSpec(Environment(), old(StoreOf()), line, key, value, index, response);
        events == old(events) + o.events && StoreOf() == o.store
    {
      var table := settings.table;

      // Read
      var isNull := tok.nullValue(line, value);
      if isNull.Parsed? {
        var text := GetValue(floats, table, settings.values, sizes.valueSize, index);
        Respond(response.(value := text));
        return;
      }

      // Write
      var overrideReadOnly := if hooks.overrideReadOnly.None? then false else hooks.overrideReadOnly.value;
      if table[index].readOnly && !overrideReadOnly {
        var _ := RespondError(response, "Unable to write read-only setting");
        return;
      }
      var error, _ := SetKeyValue(tok, floats, sizes, settings, key, line, isNull.next, overrideReadOnly);
      if error.JsonFailure? {
        var _ := RespondError(response, tok.errorText(error.code));
        return;
      }
      if hooks.writeEpilogue {
        events := events + [WriteEpilogueCalled(index)];
      }
      var text := GetValue(floats, table, settings.values, sizes.valueSize, index);
      Respond(response.(value := text));
    }

    /** The receive machine of interface `iface` in the current state. */
    ghost function MachineOf(iface: nat): Machine
      requires iface < |interfaces| && interfaces[iface].index <= interfaces[iface].buffer.Length
      reads this, settings, interfaces[iface], interfaces[iface].buffer
    {
      Machine(Pending(iface), events, StoreOf())
    }

    /**
     * Receive: `chunks` are what the interface's read hook returns, call
     * after call, before the call that returns nothing. Every byte is fed to
     * the interface's line buffer in order.
     */
    method Receive(iface: nat, chunks: seq<seq<char>>)
      requires Configured() && Valid() && iface < |interfaces|
      requires forall k :: 0 <= k < |chunks| ==> 0 < |chunks[k]| <= sizes.objectSize
      modifies this, settings, interfaces[iface], interfaces[iface].buffer
      ensures settings != null ==> settings.calls == old(settings.calls)
      ensures Valid()
      ensures MachineOf(iface) == FeedAll(sizes.objectSize, BridgeHandler(Environment(), iface, interfaces[iface].name),
                                          old(MachineOf(iface)), Concat(chunks))
    {
      var interface := interfaces[iface];
      ghost var handler := BridgeHandler(Environment(), iface, interface.name);
      ghost var start := MachineOf(iface);
      ghost var received: seq<char> := [];
      var k := 0;
      while k < |chunks|
        invariant Valid() && k <= |chunks| && received == Concat(chunks[..k])
        invariant settings != null ==> settings.calls == old(settings.calls)
        invariant MachineOf(iface) == FeedAll(sizes.objectSize, handler, start, received)
      {
        // Read data
        var data := chunks[k];

        // Process each byte
        for index := 0 to |data|
          invariant Valid() && received == Concat(chunks[..k]) + data[..index]
          invariant settings != null ==> settings.calls == old(settings.calls)
          invariant MachineOf(iface) == FeedAll(sizes.objectSize, handler, start, received)
        {
          ReceiveByte(iface, data[index]);
          ghost var longer := received + [data[index]];
          assert longer[..|received|] == received;
          assert data[..index + 1] == data[..index] + [data[index]];
          received := longer;
        }
        assert chunks[..k + 1][..k] == chunks[..k] && data[..|data|] == data;
        k := k + 1;
      }
      assert chunks[..|chunks|] == chunks;
    }

    /** One pass of Receive's byte loop: store the byte, then end the line or advance the index. */
    method ReceiveByte(iface: nat, c: char)
      requires Configured() && Valid() && iface < |interfaces|
      modifies this, settings, interfaces[iface], interfaces[iface].buffer
      ensures settings != null ==> settings.calls == old(settings.calls)
      ensures Valid()
      ensures MachineOf(iface) == Feed(sizes.objectSize, BridgeHandler(Environment(), iface, interfaces[iface].name), old(MachineOf(iface)), c)
    {
      var interface := interfaces[iface];
      ghost var pending := Pending(iface);

      // Add to buffer
      interface.buffer[interface.index] := c;

      // Parse if termination detected
      if interface.buffer[interface.index] == '\n' {

        // Terminate string
        interface.buffer[interface.index] := '\0';

        // Parse command
        TerminatedCut(interface.buffer[..], interface.index);
        assert interface.buffer[..][..interface.index] == pending;
        var json := Terminated(interface.buffer[..]);
        Parse(iface, json);
        interface.index := 0;
        return;
      }

      // Increment index
      interface.index := interface.index + 1;
      assert Pending(iface) == pending + [c];
      if interface.index >= interface.buffer.Length {
        Error(OverrunMessage(interface.name));
        interface.index := 0;
        return;
      }
    }

    /** The receive state of every interface, with the log and the store. */
    ghost function WorldOf(): World
      requires forall i :: 0 <= i < |interfaces| ==>
        interfaces[i] in Repr && interfaces[i].buffer in Repr && interfaces[i].index <= interfaces[i].buffer.Length
      reads this, settings, Repr
    {
      World(Pendings(), events, StoreOf())
    }

    /**
     * Ximu3CommandTasks: every interface receives once, in array order;
     * `inputs[i]` are the chunks interface `i`'s read hook returns.
     */
    method Tasks(inputs: seq<seq<seq<char>>>)
      requires Configured() && Valid() && |inputs| == |interfaces|
      requires forall i, k :: 0 <= i < |inputs| && 0 <= k < |inputs[i]| ==> 0 < |inputs[i][k]| <= sizes.objectSize
      modifies this, settings, Repr
      ensures settings != null ==> settings.calls == old(settings.calls)
      ensures Valid()
      ensures WorldOf() == Service(sizes.objectSize, Environment(), Names(), old(WorldOf()), Streams(inputs), |interfaces|)
    {
      ghost var w := WorldOf();
      for index := 0 to |interfaces|
        invariant Valid()
        invariant settings != null ==> settings.calls == old(settings.calls)
        invariant WorldOf() == Service(sizes.objectSize, Environment(), Names(), w, Streams(inputs), index)
      {
        Serviced(inputs, w, index);
      }
    }

    /** One turn of Tasks: interface `iface` receives, after the interfaces before it. */
    method Serviced(inputs: seq<seq<seq<char>>>, ghost w: World, iface: nat)
      requires Configured() && Valid() && |inputs| == |interfaces| && iface < |interfaces|
      requires forall k :: 0 <= k < |inputs[iface]| ==> 0 < |inputs[iface][k]| <= sizes.objectSize
      requires |w.pendings| == |interfaces|
      requires WorldOf() == Service(sizes.objectSize, Environment(), Names(), w, Streams(inputs), iface)
      modifies this, settings, interfaces[iface], interfaces[iface].buffer
      ensures settings != null ==> settings.calls == old(settings.calls)
      ensures Valid()
      ensures WorldOf() == Service(sizes.objectSize, Environment(), Names(), w, Streams(inputs), iface + 1)
    {
      ghost var before := WorldOf();
      Receive(iface, inputs[iface]);
      assert Pendings() == before.pendings[iface := Pending(iface)];
    }
  }

  /** The bytes each interface's read hook returns, one stream per interface. */
  function Streams(inputs: seq<seq<seq<char>>>): (r: seq<seq<char>>)
    ensures |r| == |inputs| && forall i :: 0 <= i < |inputs| ==> r[i] == Concat(inputs[i])
  {
    seq(|inputs|, i requires 0 <= i < |inputs| => Concat(inputs[i]))
  }
}
