# x-IMU3 device command layer, modelled in Dafny

This project models the command layer of the x-IMU3 device firmware. That
layer:

- receives newline-terminated JSON lines on any number of interfaces;
- dispatches each line to a built-in command, a device setting or an
  unknown-key hook;
- answers on the interface the line came from as `{"key":value}\n`;
- keeps the settings store, with its apply-pending flags, its defaults and its
  non-volatile copy.

The modules follow the C files:

| module | file | form |
|---|---|---|
| `CString` | (shared) | C strings, `snprintf` clipping, writing into a `char` array |
| `Key` | `Key.c` | tolerant key comparison: methods with loops, proved against `Normalise` |
| `KeyCompare` | `KeyCompare.c` | the index-based twin of `KeyMatches`, and the first-match scan |
| `Definitions` | `Ximu3Definitions.c` | the settings index enumeration and `IndexFrom` |
| `Settings` | `Ximu3Settings.c` | class `Settings`, whose methods update the value blob and flags in place, each proved against a function of the old state (`SetSpec`, `DefaultsSpec`) |
| `Json` | (collaborator) | the JSON tokenizer the codec and the bridge call, as a record of function values with the guarantees the callers rely on |
| `SettingsJson` | `Ximu3SettingsJson.c` | the settings codec: rendering into bounded buffers (an `array<char>` for `GetObjectAll`), and parsing pairs and objects into the store |
| `Command` | `Ximu3Command.c` | class `Bridge` over class `Interface` (a line buffer `array<char>` and its fill index); each method is proved against a function of the old state (`ParseSpec`, `Feed`, `FeedAll`, `Service`) |

Every call the bridge makes to a hook is appended to `Bridge.events`:

- the interface `write`;
- the `error` hook;
- a command callback;
- the `unknown` hook;
- the write epilogue.

The store's calls to the storage writer and to its epilogues are appended to
`Settings.calls` in the same way. The storage reader is not logged: `Initialise`
takes the blob it yields as a parameter. The `read` hook of an interface is replaced
by the chunks it returns, up to the call that returns 0.

Receiving is specified in two layers:

- `Framing` turns a stream of bytes into lines and overruns, given what the
  line buffer already holds.
- `FeedAll` runs the byte-by-byte machine that `Receive` implements.

`FeedAllFrames` proves that the machine is framing followed by handling the
frames in order. `Service` threads every interface's machine through the
shared log and store, in interface order. It is the specification of
`Tasks`.

## Model

| member | source | states |
|---|---|---|
| Key.ToLower | Key.c:87-92 | non-letters are returned unchanged; a letter becomes the lower-case letter `a`..`z` (itself, or 32 code points on); whether a character is alphanumeric is unchanged |
| Key.SkipNonAlphanumeric | Key.c:77-81 | the cursor stops at the terminator or at the first alphanumeric character; every character skipped is a separator; the normal form of the rest is unchanged |
| Key.KeyMatches | Key.c:31-44 | returns true exactly when the two keys have the same normal form (alphanumerics only, lower-cased) |
| Key.KeyStartsWith | Key.c:55-71 | returns true exactly when the normal form of `b` is a prefix of the normal form of `a` from the cursor; an empty `b` always matches; on success the new cursor is at the end or at an alphanumeric character, and the normal form of `a` from the old cursor is `b`'s followed by the rest |
| Key.SeparatorsIgnored | Key.c:23-30 | inserting any run of non-alphanumeric characters into a key leaves its normal form unchanged |
| Key.CaseIgnored | Key.c:23-30 | changing the case of a letter leaves a key's normal form unchanged |
| Key.NormaliseIsFolded | Key.c:87-92 | a normal form holds only alphanumerics and no upper-case letter |
| Key.NormaliseAppend | Key.c:31-44 | normalising distributes over concatenation |
| Key.UnderscoreSpelling | Key.c:23-30 | `hardware_version` matches `hardwareversion` |
| Key.CapitalisedSpelling | Key.c:23-30 | `hardware_version` matches `Hardware Version`: another separator and other case |
| Key.TitleCaseIgnored | Key.c:23-30 | two capitalised words match the same words in lower case, whatever run of separators stands between them in either key |
| Key.DistinctKeys | Key.c:23-30 | `foo` does not match `bar` |
| KeyCompare.KeyCompare | KeyCompare.c:23-55 | returns true exactly when the keys have the same normal form: the same relation as `KeyMatches` |
| KeyCompare.FirstMatch | Ximu3Command.c:128-133 | the position found matches the key and no earlier key does; None means no key matches |
| KeyCompare.FirstMatchAt | Ximu3SettingsJson.c:36-44 | a key that matches at `i` and at no earlier position is found at `i` |
| Definitions.IndexFrom | Ximu3Definitions.c:5-35 | succeeds exactly for 0 to 7 and then yields the enumerator with that value; on failure the out-parameter keeps what it held |
| Definitions.IndexRoundTrip | Ximu3Definitions.c:5-35 | converting an enumerator's value back yields that enumerator |
| Definitions.ToIntInjective | Ximu3Definitions.c:5-35 | distinct enumerators have distinct values |
| Settings.Settings.Initialise | Ximu3Settings.c:28-47 | the blob is what storage yields (blank when there is no reader); when that is blank, defaults are loaded with calibration overwritten and the defaults epilogue is called; then the initialise epilogue is called |
| Settings.Settings.Defaults | Ximu3Settings.c:54-69 | the store becomes `DefaultsSpec`: an overriding Set of each default in index order, skipping calibration fields unless asked; then the epilogue is called |
| Settings.Settings.Get | Ximu3Settings.c:75-77 | returns the current blob, laid out as the table says |
| Settings.Settings.Set | Ximu3Settings.c:86-117 | the store becomes `SetSpec`: nothing on a read-only field without override or an unchanged value, else the flag is raised and the value written (sanitised for a char array) |
| Settings.SetOnlyTouchesField | Ximu3Settings.c:86-117 | Set keeps the apply-pending invariant, leaves every other field and flag as it was, and changes the store only by writing the value and raising the flag |
| Settings.SetCurrentIsNoOp | Ximu3Settings.c:96-101 | setting a field to the value it already holds changes nothing, not even its flag |
| Settings.RepeatedSetRaisesFlag | Ximu3Settings.c:96-101 | Set compares the raw input, not the stored text: re-setting a string that was not stored verbatim raises the flag again, with the stored bytes unchanged |
| Settings.TrackedTransitive | Ximu3Settings.c:103-104 | the apply-pending invariant composes across successive changes |
| Settings.DefaultsField | Ximu3Settings.c:54-69 | after defaults, a skipped calibration field is as it was and every other field is as a lone overriding Set of its default leaves it |
| Settings.DefaultsTracked | Ximu3Settings.c:54-69 | loading defaults keeps the apply-pending invariant |
| Settings.Settings.Save | Ximu3Settings.c:146-150 | the whole blob goes to the storage writer, if there is one; the store is unchanged |
| Settings.Clean | Ximu3Settings.c:131-135 | the byte stored for a character is never zero and is always printable |
| Settings.WriteString | Ximu3Settings.c:126-140 | the region is the cleaned source clipped to size - 1, padded with zeros, its last byte zero, and every byte zero or printable |
| Settings.SanitisedReadBack | Ximu3Settings.c:126-140 | reading back a written region yields the cleaned source, clipped to size - 1 |
| Settings.SanitisedComparesEqual | Ximu3Settings.c:126-140 | a written region compares equal to its source exactly when the source is shorter than the region and fully printable |
| CString.Terminated | Ximu3Command.c:65-70 | the C string a buffer holds is a prefix of it without a terminator, followed in the buffer by a terminator unless it fills the buffer |
| CString.Clipped | Ximu3Command.c:246-250 | `snprintf` keeps a prefix of the text shorter than the size: all of it when it fits, exactly size - 1 characters when it does not; with size 0 it writes nothing, which the model reads as an empty result (every buffer size in the model is at least 1) |
| CString.ClippedAppend | Ximu3SettingsJson.c:149-152 | appending to a clipped buffer and clipping again is clipping the whole text once |
| CString.WriteAt | Ximu3SettingsJson.c:149-152 | the text is copied into the array from the start position, as much as fits before a terminator; nothing before the start or after the terminator changes |
| CString.WriteAtHolds | Ximu3SettingsJson.c:149-152 | after WriteAt the array holds the clipped concatenation of what it held before the start and the text |
| SettingsJson.GetIndex | Ximu3SettingsJson.c:36-44 | returns 0 exactly when some key matches, with the first matching index; otherwise returns 1 and leaves the out-parameter as it was |
| SettingsJson.GetKey | Ximu3SettingsJson.c:53-55 | the key clipped to the destination: all of it when it fits, else exactly size - 1 characters |
| SettingsJson.GetValue | Ximu3SettingsJson.c:64-84 | the rendered value (`true`/`false`, the quoted string, the float text, the decimal `uint32_t`) clipped to the destination (all of it when it fits, else exactly size - 1 characters), without a terminator inside |
| SettingsJson.GetObject | Ximu3SettingsJson.c:93-98 | `{"key":value}`, the value clipped to the value buffer, the whole clipped to the destination: all of it when it fits, else exactly size - 1 characters |
| SettingsJson.Decimal | Ximu3SettingsJson.c:80-82 | `%u` is a non-empty run of digits without a leading zero |
| SettingsJson.DecimalRoundTrip | Ximu3SettingsJson.c:80-82 | reading back the decimal text of a number yields the number |
| SettingsJson.DecimalLength | Ximu3SettingsJson.c:80-82 | a number below 10^k has at most k digits, so a `uint32_t` takes at most ten |
| SettingsJson.Uint32RoundTrip | Ximu3SettingsJson.c:249-258 | reading the four stored bytes back yields the stored `uint32_t` |
| SettingsJson.Append | Ximu3SettingsJson.c:149-152 | the array then holds the clipped concatenation of the string it held and the source; nothing is written past its end |
| SettingsJson.GetObjectAll | Ximu3SettingsJson.c:106-141 | the array holds the listing (`{`, one line per setting in index order, `}`) clipped to its size |
| SettingsJson.AppendPairLines | Ximu3SettingsJson.c:112-137 | after the loop the array holds the opening brace and every line, clipped |
| SettingsJson.AppendPairLine | Ximu3SettingsJson.c:115-136 | one pass appends the indented, padded pair, the comma unless last, and the newline, clipped like one append |
| SettingsJson.ListingClosed | Ximu3SettingsJson.c:140 | appending the closing brace to the clipped listing clips the whole listing |
| SettingsJson.ParseBool | Ximu3SettingsJson.c:195-203 | a failed parse returns the tokenizer's error with the store unchanged; a boolean is Set as one byte, 1 or 0 |
| SettingsJson.ParseCharArray | Ximu3SettingsJson.c:213-221 | as ParseBool, for a string parsed into a value-sized buffer |
| SettingsJson.ParseFloat | Ximu3SettingsJson.c:231-239 | as ParseBool, for the four bytes of a float |
| SettingsJson.ParseUint32 | Ximu3SettingsJson.c:249-258 | as ParseBool, for a float converted to `uint32_t` and stored as its four bytes |
| SettingsJson.SetKeyValue | Ximu3SettingsJson.c:162-185 | the error, cursor and store of `SetKeyValueSpec`: an unknown key is accepted and consumes nothing, otherwise the value is parsed by the field's type |
| SettingsJson.SetKeyValueEffect | Ximu3SettingsJson.c:162-185 | an unknown key leaves everything as it was; an error leaves the store as it was; only the first matching field can change; the apply-pending invariant is kept |
| SettingsJson.BoolReadBack | Ximu3SettingsJson.c:195-203 | writing a boolean and reading it back renders that boolean |
| SettingsJson.Uint32ReadBack | Ximu3SettingsJson.c:249-258 | writing a number and reading it back renders its decimal text, which reads back as the number |
| SettingsJson.CharArrayReadBack | Ximu3SettingsJson.c:213-221 | writing a printable string that fits and reading it back renders it in quotes |
| SettingsJson.SetObject | Ximu3SettingsJson.c:267-312 | the error and store of `SetObjectSpec`: the first error stops the loop, and pairs applied before it stay applied |
| SettingsJson.EmptyObjectIsNoOp | Ximu3SettingsJson.c:276-280 | `{}` succeeds and changes nothing |
| SettingsJson.PairsTracked | Ximu3SettingsJson.c:283-310 | however far the pair loop gets, the apply-pending invariant holds |
| SettingsJson.SetObjectTracked | Ximu3SettingsJson.c:267-312 | SetObject keeps the apply-pending invariant |
| Command.RespondText | Ximu3Command.c:246-250 | the answer written is a prefix of `{"key":value}\n` shorter than the object buffer: all of it when it fits, else exactly size - 1 characters |
| Command.AnswerIsOneLine | Ximu3Command.c:246-250 | when the object buffer has room for a full key and value, the answer is exactly `{"key":value}\n`, ends in its one newline and holds no other |
| Command.ErrorValue | Ximu3Command.c:268-271 | the value is `{"error":"..."}` with the message, all of it when it fits the value buffer, else its prefix of exactly size - 1 characters |
| Command.PingValue | Ximu3Command.c:258-261 | the value is `{"interface":"...","name":"...","sn":"..."}` with the three names, all of it when it fits the value buffer, else its prefix of exactly size - 1 characters |
| Command.Report | Ximu3Command.c:279-289 | at most one call, made exactly when there is an error hook, passing the message whole when it has at most 255 characters and else its first 255 |
| Command.Bridge.Error | Ximu3Command.c:279-289 | the message, clipped to the 256-byte buffer (at most 255 characters and the terminator), goes to the error hook if there is one |
| Command.Bridge.Respond | Ximu3Command.c:246-250 | writes the clipped answer to the response's interface |
| Command.Bridge.RespondError | Ximu3Command.c:268-271 | the value becomes the clipped `{"error":"..."}`, then the response is written |
| Command.Bridge.RespondPing | Ximu3Command.c:258-261 | the value names the interface, the device and the serial number, then the response is written |
| Command.Bridge.ParseString | Ximu3Command.c:186-193 | returns 0 exactly when the string parses, with the string and the response untouched; otherwise returns 1, answers the tokenizer's error, and leaves the caller's response holding `{"error":"..."}` as its value |
| Command.Bridge.ParseNumber | Ximu3Command.c:202-209 | as ParseString, for a number |
| Command.Bridge.ParseBoolean | Ximu3Command.c:218-225 | as ParseString, for a boolean |
| Command.Bridge.ParseNull | Ximu3Command.c:233-240 | as ParseString, for null |
| Command.Bridge.Parse | Ximu3Command.c:92-175 | the calls made and the store left are those of `ParseSpec`; the store's storage and epilogue log is left as it was |
| Command.Bridge.Dispatch | Ximu3Command.c:127-174 | the calls made and the store left are those of `DispatchSpec`; the store's storage and epilogue log is left as it was |
| Command.Bridge.DispatchSetting | Ximu3Command.c:137-165 | the calls made and the store left are those of `SettingSpec`; the store's storage and epilogue log is left as it was |
| Command.MalformedLineOnlyReported | Ximu3Command.c:94-122 | a line that is not a single-pair object makes one error-hook call at most (exactly one when there is a hook), answers nothing and leaves the store as it was |
| Command.DispatchPriority | Ximu3Command.c:127-174 | a key matching any command goes to the first matching command alone and leaves the store; else the first matching setting handles it; the unknown hook is called exactly when no command or setting matches and the hook exists; otherwise "Unknown command" is answered with the store unchanged |
| Command.SettingAnswers | Ximu3Command.c:137-165 | null reads the setting and leaves the store as it was; a read-only write without override is rejected with the store unchanged; a value the codec rejects is answered with the tokenizer's error, with no epilogue and the store unchanged; a write the codec accepts, even one that changes nothing, calls the epilogue and then answers the value read back; only that field moves; the apply-pending invariant is kept; exactly one answer is written |
| Command.ParseAnswers | Ximu3Command.c:92-175 | each line gets at most one answer from the bridge, always `{"key":value}\n` (clipped) on the line's own interface under the line's key |
| Command.ParseTracked | Ximu3Command.c:92-175 | handling a line keeps the apply-pending invariant |
| Command.Framing | Ximu3Command.c:57-81 | what stays buffered is always shorter than the line buffer |
| Command.FramingAppend | Ximu3Command.c:47-84 | framing two stretches of bytes in turn is framing them together, so chunk boundaries do not matter |
| Command.ShortLineDispatched | Ximu3Command.c:57-72 | a line shorter than the buffer, sent on an empty buffer, is exactly one line with that text, and leaves the buffer empty |
| Command.OverrunOnce | Ximu3Command.c:74-79 | as many bytes without a newline as the buffer holds make exactly one overrun and leave the buffer empty |
| Command.NoResync | Ximu3Command.c:74-79 | after an overrun the rest of the over-long line is taken as a line of its own: there is no resynchronisation |
| Command.Feed | Ximu3Command.c:57-81 | one byte leaves less buffered than the buffer holds |
| Command.FeedAllFrames | Ximu3Command.c:47-84 | the receive machine is framing followed by handling the frames in order |
| Command.FeedAllAppend | Ximu3Command.c:47-84 | receiving two stretches in turn is receiving them together |
| Command.FeedAllTracked | Ximu3Command.c:47-84 | however many bytes an interface receives, the apply-pending invariant holds |
| Command.BridgeHandler | Ximu3Command.c:66-78 | a line is handled by `ParseSpec` for that interface, and an overrun reports the buffer-overrun message |
| Command.Bridge.ReceiveByte | Ximu3Command.c:57-81 | one byte moves the interface's machine as `Feed` does; the fill index stays below the buffer size; the store's storage and epilogue log is left as it was |
| Command.Bridge.Receive | Ximu3Command.c:47-84 | the interface's machine moves as `FeedAll` over every byte read, in order; only that interface's buffer and index change; the store's storage and epilogue log is left as it was |
| Command.Bridge.Tasks | Ximu3Command.c:36-40 | the line buffers, log and store become `Service` over every interface in order; the store's storage and epilogue log is left as it was |
| Command.Bridge.Serviced | Ximu3Command.c:37-38 | one interface's turn extends `Service` by that interface; the store's storage and epilogue log is left as it was |
| Command.Service | Ximu3Command.c:36-40 | servicing keeps the number of line buffers and keeps each shorter than the buffer size |
| Command.ServicePending | Ximu3Command.c:36-40 | after servicing, each interface's buffer holds what framing its own bytes on its own earlier contents leaves, whatever the others received |
| Command.ServiceTracked | Ximu3Command.c:36-40 | servicing every interface keeps the apply-pending invariant of the shared store |

## Left out

- Float formatting (`%f`) and the float-to-`uint32_t` cast are collaborators (`FloatSupport`). The model asks only that the text holds no terminator and that the cast yields a value below 2^32.
- The JSON tokenizer (`Json.h`) is not part of this model. It is a record of functions. The model asks that each leaves its cursor within the text and that a parsed key or string is a C string fitting its buffer.
- `KeyCompare` passes a plain `char` to `isalnum`, which is undefined for negative values. The model gives bytes from 0x80 upward the "C" locale's answer (not alphanumeric), the same answer as `Key.c`.
- SettingsJson.GetValue: a char-array field loaded from storage without a terminator would make `%s` read past the field, which is undefined behaviour in C. The model chooses a defined answer and reads up to the end of the field (`StoredText`).
- Settings.Settings.Set: for a char-array field whose `strncmp` differs, the source goes on to run a `memcmp` of the whole field size over the input string. That can read past the string's end. The model takes that comparison as "different", which is what it returns whenever `strncmp` differs.
- Uint32 fields are stored little-endian; the target's byte order is not part of this model. Only reading back a stored number is proved (`Uint32RoundTrip`); storing back the bytes of an arbitrary region is not.
- The hooks' effects other than the override hook's answer are events in the log.
- Hooks: the read-only override hook is modelled by one answer (`Hooks.overrideReadOnly`), fixed for the bridge's life. The source asks the hook again on every setting write, so an answer that changes at run time (one a command callback switches, say) is not captured. The call to the hook is not logged either, and it is made for writable fields as well as read-only ones.
- `read` is modelled by the sequence of chunks it returns before it returns 0.
- The `ApplyPending` consumer of the flags, `main.c` and the metadata table contents (a generated header) are not part of this model. Sizes (`XIMU3_KEY_SIZE` and the others) are parameters.
- The `Ximu3SettingsIndex` enumerator values are taken to be 0 to 7 in declaration order.
- Command.Bridge.ParseString: the `numberOfBytes` out-parameter is not returned.
- Command.Bridge.Dispatch, Command.Bridge.DispatchSetting, Command.Bridge.ReceiveByte, Command.Bridge.Serviced, SettingsJson.AppendPairLines and SettingsJson.AppendPairLine are parts of one source function each, split out to keep their proofs small.
