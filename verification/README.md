# Custom terminal shortcuts and the Whisper API client, in Dafny

This project models two parts of a keyboard app.

**Custom shortcuts.** A user can keep key-combination shortcuts of their own next to a compiled-in catalog of nine terminal shortcuts (Ctrl+L, Ctrl+R, Ctrl+Z, Ctrl+D, Ctrl+W, Ctrl+U, Ctrl+K, Escape, Tab). Some of these are enabled.
- The settings store holds two values:
  - the user's shortcut list, as JSON text;
  - the enabled ids, as a comma-separated string.
- The manager reads and writes both values. It adds, removes, updates and enables shortcuts, lists the available shortcuts and seeds the default enabled set on first run.
- The registry turns the available shortcuts into a map from `custom_shortcut_<id>` to a keyboard action. That action sends one key press. The registry caches the map and rebuilds it only when the available list changes by value.
- The five standalone terminal actions send the same key presses as their catalog entries.

**Whisper client.** Transcription goes through the OpenAI transcription endpoint in five steps:
1. The client reports the `Encoding` status.
2. It encodes the samples as a 16 kHz mono 16-bit PCM WAV file with a 44-byte header. The fields are little-endian. Each one is written through a big-endian `DataOutputStream` after a byte reversal.
3. It reports the `LoadingModel` status.
4. It posts a `multipart/form-data` body. The parts are the file, the model `whisper-1` and an optional language.
5. It classifies the reply. A 200 status yields the transcript. Any other status fails with the code and the error text.

Each operation is a pure function. A store operation maps a store to a store. The registry maps a registry and a store to a new registry and its result. The network's reply is a parameter. Kotlin's insertion-ordered `Set<String>` is modelled as a duplicate-free sequence. `Int`/`Short` wrap-around and the `DataOutputStream` byte order are written out in full.

Partners and round trips that are proved:
- the enabled set written then read back;
- `Join`/`Split` and integer-to-decimal printing and parsing;
- the cache invariant of the registry across any sequence of calls;
- a canonical WAV reader, which parses the encoder's output back to the clamped samples;
- a reference multipart encoder, which builds the same bytes as the client's hand-written body.

The shortcut list written then read back is assumed rather than proved: the JSON codec is abstract, and decoding is taken to invert encoding.

Modules:
- `Wrappers`: `Option` and `Result`.
- `Seqs`: filtering, de-duplication and insertion-ordered set operations on sequences.
- `Text`: Kotlin's `isBlank`, `split` and `joinToString`, and decimal printing.
- `Android`: the key codes, the meta flag and the resource ids used.
- `Actions`: keyboard actions.
- `CustomShortcuts`: the shortcut record, `toAction` and the catalog.
- `TerminalActions`: the five standalone actions.
- `ShortcutsManager`: the store and its operations.
- `ShortcutRegistry`: the action map cache.
- `Bytes`: fixed-width integers and `DataOutputStream` writes.
- `Wav`: the WAV encoder and its reader.
- `WhisperClient`: the request body, response classification and `transcribe`.

Two behaviours of the code worth knowing:
- Enabled ids round-trip only if they are storable, meaning non-blank and free of commas (see `ShortcutsManager.SeparatorInIdSplitsIt`).
- A 200 reply without a `text` field is a failure, not a transcript.

## Model

| member | source | states |
|---|---|---|
| CustomShortcuts.NewShortcut | java/src/org/futo/inputmethod/latin/uix/actions/CustomShortcuts.kt:11-19 | The record keeps every given field. When no icon is given, the icon is the keyboard-gear drawable. |
| CustomShortcuts.ToAction | java/src/org/futo/inputmethod/latin/uix/actions/CustomShortcuts.kt:23-32 | Pressing the action sends exactly one event, the shortcut's (key code, meta state). The action opens no window and shows the shortcut's icon under the dynamic name. |
| CustomShortcuts.CatalogOrder | java/src/org/futo/inputmethod/latin/uix/actions/CustomShortcuts.kt:123-125 | The catalog holds nine shortcuts in the order ctrl_l, ctrl_r, ctrl_z, ctrl_d, ctrl_w, ctrl_u, ctrl_k, esc, tab. No two share an id. |
| CustomShortcuts.CatalogKeyBindings | java/src/org/futo/inputmethod/latin/uix/actions/CustomShortcuts.kt:39-118 | Every `ctrl_<letter>` entry sends that letter's key code with the control flag. Escape and Tab send their own key codes with no modifier. |
| TerminalActions.TerminalActionsMatchCatalog | java/src/org/futo/inputmethod/latin/uix/actions/TerminalShortcutActions.kt:11-54 | Each standalone action sends the same single key press as the catalog entry with the same id, and opens no window. |
| ShortcutsManager.ParseEnabled | java/src/org/futo/inputmethod/latin/uix/actions/CustomShortcutsManager.kt:48-51 | An id is read back exactly when it is a non-blank comma-separated token of the stored text. The result holds no duplicates and no blank or comma-containing id. Text that is already a well-formed list reads back as that list. |
| ShortcutsManager.GetEnabledShortcuts | java/src/org/futo/inputmethod/latin/uix/actions/CustomShortcutsManager.kt:48-51 | The enabled set read from any store is well formed: no duplicates and only storable ids. |
| ShortcutsManager.EnabledRoundTrip | java/src/org/futo/inputmethod/latin/uix/actions/CustomShortcutsManager.kt:64-67 | Saving a set of storable, distinct ids and reading it back gives the same ids in the same order. The empty set is written as the empty text `""`, the settings default. The shortcut list is untouched. |
| ShortcutsManager.SaveCustomShortcuts | java/src/org/futo/inputmethod/latin/uix/actions/CustomShortcutsManager.kt:56-59 | The saved list is what `getCustomShortcuts` reads back afterwards, and the enabled ids are untouched. |
| ShortcutsManager.SaveEnabledShortcuts | java/src/org/futo/inputmethod/latin/uix/actions/CustomShortcutsManager.kt:64-67 | The empty set is stored as the empty text, which reads back as the empty set through `ParseEnabled` (splitting it alone gives one empty token). One or more ids without a comma split back into exactly those ids. The shortcut list is untouched. |
| ShortcutsManager.CustomShortcutsRoundTrip | java/src/org/futo/inputmethod/latin/uix/actions/CustomShortcutsManager.kt:36-43 | `getCustomShortcuts` after `saveCustomShortcuts` returns the saved list. The enabled ids are untouched. |
| ShortcutsManager.UnreadableShortcutsAreEmpty | java/src/org/futo/inputmethod/latin/uix/actions/CustomShortcutsManager.kt:36-43 | Stored text that does not decode, and the default `"[]"`, both read as the empty list. The decoding failure is swallowed. |
| ShortcutsManager.AddCustomShortcut | java/src/org/futo/inputmethod/latin/uix/actions/CustomShortcutsManager.kt:72-76 | The new list is the old list with the shortcut appended. There is no check for an existing id. The enabled ids are untouched. |
| ShortcutsManager.RemoveCustomShortcut | java/src/org/futo/inputmethod/latin/uix/actions/CustomShortcutsManager.kt:81-90 | Every shortcut with the id is dropped, and the rest keep their order. The id leaves the enabled set. Every other enabled id stays enabled, and no new one appears. |
| ShortcutsManager.UpdateCustomShortcut | java/src/org/futo/inputmethod/latin/uix/actions/CustomShortcutsManager.kt:95-99 | Every shortcut with a matching id is replaced in place, and every other shortcut is kept. With no match the list is unchanged, because an update never inserts. The enabled ids are untouched. |
| ShortcutsManager.SetShortcutEnabled | java/src/org/futo/inputmethod/latin/uix/actions/CustomShortcutsManager.kt:104-112 | For a storable id, the id is enabled afterwards exactly when `enabled` is true. Enabling appends the id to the set, and disabling removes it. No other id changes, and the shortcut list is untouched. |
| ShortcutsManager.SetShortcutEnabledIdempotent | java/src/org/futo/inputmethod/latin/uix/actions/CustomShortcutsManager.kt:104-112 | Setting the same state twice gives the same store as setting it once. |
| ShortcutsManager.SetShortcutEnabledReadIdempotent | java/src/org/futo/inputmethod/latin/uix/actions/CustomShortcutsManager.kt:104-112 | For every id, storable or not, and either state, the enabled set read back after setting the state twice equals the one after setting it once. |
| ShortcutsManager.ParseAppended | java/src/org/futo/inputmethod/latin/uix/actions/CustomShortcutsManager.kt:48-51 | Reading back a well-formed set with one more id joined on gives the set followed by the id's non-blank comma-separated pieces, each new piece once. |
| ShortcutsManager.EnablingNewIdAppends | java/src/org/futo/inputmethod/latin/uix/actions/CustomShortcutsManager.kt:104-112 | Enabling an id that is not enabled stores the ids read back with the id appended, joined by commas. |
| ShortcutsManager.EnablingTwiceGrowsText | java/src/org/futo/inputmethod/latin/uix/actions/CustomShortcutsManager.kt:104-112 | The stored text is not idempotent for an id containing a comma: enabling `"a,b"` on a fresh store stores `"a,b"`, and enabling it again stores `"a,b,a,b"`. |
| ShortcutsManager.SeparatorInIdSplitsIt | java/src/org/futo/inputmethod/latin/uix/actions/CustomShortcutsManager.kt:104-112 | An id that contains the separator does not survive storage. Enabling `"a,b"` enables `"a"` and `"b"`. |
| ShortcutsManager.EnablingStoresIdVerbatim | java/src/org/futo/inputmethod/latin/uix/actions/CustomShortcutsManager.kt:104-112 | Enabling an id in a fresh store writes exactly that id as the stored text. |
| ShortcutsManager.ParseTwoIds | java/src/org/futo/inputmethod/latin/uix/actions/CustomShortcutsManager.kt:48-51 | The stored text `"a,b"` reads as the two ids `"a"` and `"b"`. |
| ShortcutsManager.GetAvailableShortcuts | java/src/org/futo/inputmethod/latin/uix/actions/CustomShortcutsManager.kt:117-123 | The result is the enabled catalog entries in catalog order, followed by the enabled user shortcuts in list order. A shortcut is available exactly when it is in either list and its id is enabled. |
| ShortcutsManager.InitializeDefaultShortcuts | java/src/org/futo/inputmethod/latin/uix/actions/CustomShortcutsManager.kt:128-141 | An empty enabled set becomes exactly ctrl_l, ctrl_r, ctrl_z, esc, tab. A non-empty one leaves the store as it was. The shortcut list never changes. |
| ShortcutsManager.InitializeDefaultShortcutsIdempotent | java/src/org/futo/inputmethod/latin/uix/actions/CustomShortcutsManager.kt:128-141 | Seeding twice is the same as seeding once. |
| ShortcutsManager.DefaultEnabledWellFormed | java/src/org/futo/inputmethod/latin/uix/actions/CustomShortcutsManager.kt:132-138 | The default ids are storable and distinct, so they survive storage. |
| ShortcutsManager.DefaultEnabledAreCatalogIds | java/src/org/futo/inputmethod/latin/uix/actions/CustomShortcutsManager.kt:132-138 | Every seeded id names a catalog shortcut. |
| ShortcutRegistry.ActionKeyInjective | java/src/org/futo/inputmethod/latin/uix/actions/CustomShortcutRegistry.kt:36-38 | Distinct ids get distinct `custom_shortcut_` keys. |
| ShortcutRegistry.CreateActionFromShortcut | java/src/org/futo/inputmethod/latin/uix/actions/CustomShortcutRegistry.kt:48-57 | The registry's action sends exactly the shortcut's (key code, meta state) and opens no window. It shows the shortcut's icon. It is the same action as the shortcut's own conversion. |
| ShortcutRegistry.Associate | java/src/org/futo/inputmethod/latin/uix/actions/CustomShortcutRegistry.kt:36-38 | The keys of the map are exactly the keys of the listed shortcuts. Under each key is the action of the last shortcut with that id. |
| ShortcutRegistry.AssociateLookup | java/src/org/futo/inputmethod/latin/uix/actions/CustomShortcutRegistry.kt:36-38 | A key is present exactly when some shortcut has the id. Its value is the action of the last such shortcut. |
| ShortcutRegistry.LastIndexOfId | java/src/org/futo/inputmethod/latin/uix/actions/CustomShortcutRegistry.kt:36-38 | When some shortcut has the id, there is a last position holding it. |
| ShortcutRegistry.LaterDuplicateWins | java/src/org/futo/inputmethod/latin/uix/actions/CustomShortcutRegistry.kt:36-38 | When two shortcuts share an id, the later one's action is the one stored. |
| ShortcutRegistry.GetCustomShortcutActions | java/src/org/futo/inputmethod/latin/uix/actions/CustomShortcutRegistry.kt:31-43 | Afterwards the registry remembers the current available list. The result is the map built from that list. The cache invariant is kept. Nothing is rebuilt exactly when the list is value-equal to the remembered one. A rebuild builds one action per available shortcut. |
| ShortcutRegistry.GetShortcutAction | java/src/org/futo/inputmethod/latin/uix/actions/CustomShortcutRegistry.kt:62-65 | With a consistent cache, an action is found exactly when some available shortcut has the id. The action found is the one for the last such shortcut. |
| ShortcutRegistry.ClearCache | java/src/org/futo/inputmethod/latin/uix/actions/CustomShortcutRegistry.kt:70-73 | Both fields return to empty, and the cache invariant holds. |
| ShortcutRegistry.RunKeepsConsistent | java/src/org/futo/inputmethod/latin/uix/actions/CustomShortcutRegistry.kt:16-17 | Any sequence of lookups and cache clears keeps the cached map equal to the map built from the remembered list. |
| ShortcutRegistry.InitialRegistryConsistent | java/src/org/futo/inputmethod/latin/uix/actions/CustomShortcutRegistry.kt:16-17 | The empty initial fields satisfy the cache invariant. |
| ShortcutRegistry.RepeatedFetchIsMemoized | java/src/org/futo/inputmethod/latin/uix/actions/CustomShortcutRegistry.kt:35-39 | A second lookup with no change in between builds nothing and returns the same map. |
| ShortcutRegistry.ClearForcesRebuild | java/src/org/futo/inputmethod/latin/uix/actions/CustomShortcutRegistry.kt:70-73 | After a clear, a lookup rebuilds every available action even if nothing changed. |
| ShortcutRegistry.ManagerActionOnlyOpensWindow | java/src/org/futo/inputmethod/latin/uix/actions/CustomShortcutRegistry.kt:79-86 | The manager action sends nothing on press and only opens the shortcut manager window. |
| Bytes.ToInt32 | voiceinput-shared/src/main/java/org/futo/voiceinput/shared/whisper/OpenAIWhisperClient.kt:57 | `Int` arithmetic wraps into the signed 32-bit range. It agrees with the exact value modulo 2^32 and is the identity inside the range. |
| Bytes.ToInt16 | voiceinput-shared/src/main/java/org/futo/voiceinput/shared/whisper/OpenAIWhisperClient.kt:73 | `toShort()` wraps into the signed 16-bit range. It agrees modulo 2^16 and is the identity inside the range. |
| Bytes.WriteIntOfReversed | voiceinput-shared/src/main/java/org/futo/voiceinput/shared/whisper/OpenAIWhisperClient.kt:57 | Writing `Integer.reverseBytes(x)` big-endian puts out the little-endian encoding of `x`. |
| Bytes.WriteShortOfReversed | voiceinput-shared/src/main/java/org/futo/voiceinput/shared/whisper/OpenAIWhisperClient.kt:61 | Writing `Short.reverseBytes(x)` big-endian puts out the little-endian encoding of `x`. |
| Bytes.WriteIntReversed | voiceinput-shared/src/main/java/org/futo/voiceinput/shared/whisper/OpenAIWhisperClient.kt:63-64 | The four bytes written for an `Int` field are its little-endian encoding. |
| Bytes.WriteShortReversed | voiceinput-shared/src/main/java/org/futo/voiceinput/shared/whisper/OpenAIWhisperClient.kt:65-66 | The two bytes written for a `Short` field are its little-endian encoding. |
| Bytes.WriteBytesAppend | voiceinput-shared/src/main/java/org/futo/voiceinput/shared/whisper/OpenAIWhisperClient.kt:98-100 | Consecutive `writeBytes` calls put out the concatenation of their strings. |
| Bytes.Le32RoundTrip | voiceinput-shared/src/main/java/org/futo/voiceinput/shared/whisper/OpenAIWhisperClient.kt:57 | Reading the four little-endian bytes back gives the value modulo 2^32, and the value itself when it is unsigned 32-bit. |
| Bytes.Le16RoundTrip | voiceinput-shared/src/main/java/org/futo/voiceinput/shared/whisper/OpenAIWhisperClient.kt:73 | Reading the two bytes back, as a signed value, gives every `Short` back. |
| Wav.Clamp16 | voiceinput-shared/src/main/java/org/futo/voiceinput/shared/whisper/OpenAIWhisperClient.kt:72 | `coerceIn` to the `Short` range: an in-range sample is kept, and a sample out of range goes to the nearer bound. |
| Wav.Clamp16Idempotent | voiceinput-shared/src/main/java/org/futo/voiceinput/shared/whisper/OpenAIWhisperClient.kt:72 | Clamping twice is clamping once. |
| Wav.ConvertToWav | voiceinput-shared/src/main/java/org/futo/voiceinput/shared/whisper/OpenAIWhisperClient.kt:46-81 | The file is 44 header bytes plus two bytes per sample. It starts with the header for that many samples. |
| Wav.HeaderIsCanonical | voiceinput-shared/src/main/java/org/futo/voiceinput/shared/whisper/OpenAIWhisperClient.kt:56-68 | The written header equals the canonical layout: RIFF, size, WAVE, `fmt `, 16, PCM 1, 1 channel, 16000, 32000, 2, 16, data, data size. |
| Wav.ConstantFields | voiceinput-shared/src/main/java/org/futo/voiceinput/shared/whisper/OpenAIWhisperClient.kt:61-66 | The format fields are put out little-endian as sample rate 16000, byte rate 32000, 1 channel, block align 2 and 16 bits per sample. |
| Wav.WrappedSizes | voiceinput-shared/src/main/java/org/futo/voiceinput/shared/whisper/OpenAIWhisperClient.kt:57 | The 32-bit wrap-around of the two size computations does not change the bytes written. |
| Wav.SamplesAt | voiceinput-shared/src/main/java/org/futo/voiceinput/shared/whisper/OpenAIWhisperClient.kt:71-74 | Sample `i` occupies bytes `2i` and `2i+1` of the data area. |
| Wav.SampleBytesDecode | voiceinput-shared/src/main/java/org/futo/voiceinput/shared/whisper/OpenAIWhisperClient.kt:72-73 | The two bytes written for a sample decode, as signed little-endian, to the clamped sample. |
| Wav.SampleDecodes | voiceinput-shared/src/main/java/org/futo/voiceinput/shared/whisper/OpenAIWhisperClient.kt:71-74 | The bytes of sample `i` in the file decode to the clamped input sample. |
| Wav.DecodeSamplesOfSamples | voiceinput-shared/src/main/java/org/futo/voiceinput/shared/whisper/OpenAIWhisperClient.kt:71-74 | Decoding the whole data area gives back the clamped samples in order. |
| Wav.CanonicalHeaderFields | voiceinput-shared/src/main/java/org/futo/voiceinput/shared/whisper/OpenAIWhisperClient.kt:56-68 | A reader finds a valid header. It reads 1 channel, 16000 Hz, 16 bits and a data size of two bytes per sample. |
| Wav.CanonicalHeaderParses | voiceinput-shared/src/main/java/org/futo/voiceinput/shared/whisper/OpenAIWhisperClient.kt:56-68 | The canonical header of `n` samples parses to (1, 16000, 16, 2n). |
| Wav.WavIsHeaderThenSamples | voiceinput-shared/src/main/java/org/futo/voiceinput/shared/whisper/OpenAIWhisperClient.kt:46-81 | The file is the canonical header followed by the sample bytes. |
| Wav.WavLayout | voiceinput-shared/src/main/java/org/futo/voiceinput/shared/whisper/OpenAIWhisperClient.kt:46-81 | The file splits into a 44-byte header that parses correctly and the sample bytes. |
| Wav.ParseWavOf | voiceinput-shared/src/main/java/org/futo/voiceinput/shared/whisper/OpenAIWhisperClient.kt:46-81 | When the header parses with 16 bits per sample, the file reads as the header's format plus the decoded data area. |
| Wav.SizeFields | voiceinput-shared/src/main/java/org/futo/voiceinput/shared/whisper/OpenAIWhisperClient.kt:57-68 | The RIFF size field is the file length less 8. The data size field is the file length less 44. |
| Wav.WavRoundTrip | voiceinput-shared/src/main/java/org/futo/voiceinput/shared/whisper/OpenAIWhisperClient.kt:46-81 | A WAV reader parses the encoder's output back to mono, 16000 Hz, 16-bit PCM holding the clamped samples. |
| WhisperClient.Parts | voiceinput-shared/src/main/java/org/futo/voiceinput/shared/whisper/OpenAIWhisperClient.kt:97-117 | The form has the file part (`audio.wav`, `audio/wav`, the WAV bytes) and the model part `whisper-1`. A language part is added exactly when a non-empty language is given. |
| WhisperClient.RequestBodyIsMultipart | voiceinput-shared/src/main/java/org/futo/voiceinput/shared/whisper/OpenAIWhisperClient.kt:98-119 | The hand-written body equals the reference multipart encoding of the form's parts with the fixed boundary. |
| WhisperClient.RequestBodyByPart | voiceinput-shared/src/main/java/org/futo/voiceinput/shared/whisper/OpenAIWhisperClient.kt:98-119 | The body is the file part, the model part, the optional language part and the closing delimiter, in that order. |
| WhisperClient.PartsByPart | voiceinput-shared/src/main/java/org/futo/voiceinput/shared/whisper/OpenAIWhisperClient.kt:98-119 | The reference encoding of the form is the encoding of each part, in order, followed by the closing delimiter. |
| WhisperClient.FilePartEncoding | voiceinput-shared/src/main/java/org/futo/voiceinput/shared/whisper/OpenAIWhisperClient.kt:98-102 | The file part encodes as the boundary line, the disposition with its file name, the content type, a blank line, the WAV bytes and a CRLF. |
| WhisperClient.FilePartHeaders | voiceinput-shared/src/main/java/org/futo/voiceinput/shared/whisper/OpenAIWhisperClient.kt:99-100 | The file part's header lines are the disposition line and the `audio/wav` content type, then a blank line. |
| WhisperClient.FileDispositionLine | voiceinput-shared/src/main/java/org/futo/voiceinput/shared/whisper/OpenAIWhisperClient.kt:99 | The file part's disposition names the field `file` and the file `audio.wav`. |
| WhisperClient.PlainPartEncoding | voiceinput-shared/src/main/java/org/futo/voiceinput/shared/whisper/OpenAIWhisperClient.kt:105-107 | A text part encodes as the boundary line, the disposition line, a blank line, the value and a CRLF. |
| WhisperClient.ModelPartEncoding | voiceinput-shared/src/main/java/org/futo/voiceinput/shared/whisper/OpenAIWhisperClient.kt:105-107 | The model part is written as the text part `model` = `whisper-1`. |
| WhisperClient.LanguagePartEncoding | voiceinput-shared/src/main/java/org/futo/voiceinput/shared/whisper/OpenAIWhisperClient.kt:110-117 | With a non-empty language, the language section is the text part `language` = that language. |
| WhisperClient.EncodeTwoParts | voiceinput-shared/src/main/java/org/futo/voiceinput/shared/whisper/OpenAIWhisperClient.kt:98-119 | A two-part form encodes as the parts in order, then the closing delimiter. |
| WhisperClient.EncodeThreeParts | voiceinput-shared/src/main/java/org/futo/voiceinput/shared/whisper/OpenAIWhisperClient.kt:98-119 | A three-part form encodes as the parts in order, then the closing delimiter. |
| WhisperClient.ClosingEncoding | voiceinput-shared/src/main/java/org/futo/voiceinput/shared/whisper/OpenAIWhisperClient.kt:119 | An empty form encodes as just the closing delimiter line `--<boundary>--\r\n`. |
| WhisperClient.WavCarriedVerbatim | voiceinput-shared/src/main/java/org/futo/voiceinput/shared/whisper/OpenAIWhisperClient.kt:98-102 | The body starts with the file part's headers, and the WAV bytes follow them unchanged. |
| WhisperClient.FailureMessageCarriesCodeAndText | voiceinput-shared/src/main/java/org/futo/voiceinput/shared/whisper/OpenAIWhisperClient.kt:132 | The failure message starts with the fixed prefix, then the status code in decimal, which parses back to the code. It ends with the error text. |
| WhisperClient.HandleResponse | voiceinput-shared/src/main/java/org/futo/voiceinput/shared/whisper/OpenAIWhisperClient.kt:122-133 | A 200 with a `text` field yields that text, and a 200 without one fails. Any other code fails with the code and the error text, or "Unknown error" when there is none. It succeeds exactly on a 200 with text. |
| WhisperClient.MakeApiRequest | voiceinput-shared/src/main/java/org/futo/voiceinput/shared/whisper/OpenAIWhisperClient.kt:83-137 | The bytes sent are the multipart encoding of the form. The result is the reply's classification: it succeeds exactly on a 200 with text and then holds that text; on a 200 without text it is `MalformedResponse`; on any other code it is the failure with the code and the error text. |
| WhisperClient.Transcribe | voiceinput-shared/src/main/java/org/futo/voiceinput/shared/whisper/OpenAIWhisperClient.kt:23-44 | The events are `Encoding`, then `LoadingModel`, then the request carrying the encoded WAV of the samples. The outcome is the reply's classification: the transcript of a 200 with text, `MalformedResponse` on a 200 without text, and on any other code the failure with the code and the error text. It succeeds exactly on a 200 with text. |
| WhisperClient.TranscribeScenarios | voiceinput-shared/src/main/java/org/futo/voiceinput/shared/whisper/OpenAIWhisperClient.kt:23-44 | A transcription whose reply is a 200 with text "hello world" returns "hello world". One whose reply is a 401 with "invalid key" fails with "API request failed with code 401: invalid key". |
| WhisperClient.SuccessScenario | voiceinput-shared/src/main/java/org/futo/voiceinput/shared/whisper/OpenAIWhisperClient.kt:123-128 | A 200 reply with text "hello world" yields "hello world". |
| WhisperClient.UnauthorizedScenario | voiceinput-shared/src/main/java/org/futo/voiceinput/shared/whisper/OpenAIWhisperClient.kt:129-132 | A 401 reply with error text "invalid key" fails with "API request failed with code 401: invalid key". |
| WhisperClient.MissingErrorTextScenario | voiceinput-shared/src/main/java/org/futo/voiceinput/shared/whisper/OpenAIWhisperClient.kt:129-132 | A 500 reply with no error stream fails with "API request failed with code 500: Unknown error". |
| Text.JoinSplit | java/src/org/futo/inputmethod/latin/uix/actions/CustomShortcutsManager.kt:48-51 | Splitting text on the separator and joining the pieces gives the text back. |
| Text.SplitAround | java/src/org/futo/inputmethod/latin/uix/actions/CustomShortcutsManager.kt:48-51 | Splitting two strings joined by the separator gives the tokens of the first, then the tokens of the second. |
| Text.SplitJoin | java/src/org/futo/inputmethod/latin/uix/actions/CustomShortcutsManager.kt:64-67 | Joining one or more separator-free tokens and splitting the result gives the tokens back. Zero tokens join to the empty text, which splits into one empty token, so the list must be non-empty. |
| Text.IntToStringRoundTrip | voiceinput-shared/src/main/java/org/futo/voiceinput/shared/whisper/OpenAIWhisperClient.kt:132 | The decimal form of the status code parses back to the code. |

## Left out

- JSON: the stored shortcut list is abstract. It is either the encoding of a list or undecodable text, and decoding is taken to invert encoding. The `kotlinx.serialization` JSON codec itself is not modelled.
- The Android `Context`, the DataStore settings, `suspend`/coroutines and `Dispatchers.IO` are left out. Each store operation is a pure function, and the calling order is the order of calls.
- Concurrency: read-modify-write races between two writers of the store, and the background launch in the registry's `initializeIfNeeded`, are not modelled. Only sequential calls are.
- `initializeIfNeeded` (CustomShortcutRegistry.kt:22-26): seeding is modelled as `ShortcutsManager.InitializeDefaultShortcuts`. The coroutine launch that runs it is not modelled.
- The shortcut manager window (CustomShortcutsManagerWindow.kt) is UI. Only the action that opens it is modelled.
- Resource ids (`R.drawable`, `R.string`) and the Android key code and meta constants are plain integers. The drawables are placeholders; the key codes have Android's values.
- Float scaling: the samples are taken as already multiplied by `Short.MAX_VALUE` and converted with `toInt()`. Float rounding and `NaN` are not modelled. Clamping and the 16-bit write are.
- `Language.toWhisperString` and the iteration order of the language set are not modelled. The caller passes the first language's string, or `None` for an empty set.
- The HTTP connection is not modelled: its URL, the `POST` method, the `Authorization` and `Content-Type` headers, streams, `disconnect` and `IOException`s. The reply is a parameter, and the body sent is recorded as an event.
- `org.json` parsing: the reply body is reduced to its `text` field, or `None`. A 200 without it fails with `MalformedResponse`, which stands for the `JSONException` the Kotlin code throws.
- Logging (`Log.e`) and the rethrow in `transcribe` are not modelled.
- The `IOException` path of `convertFloatArrayToWav` is not modelled, since writes to a `ByteArrayOutputStream` do not fail.
- ShortcutsManager.SetShortcutEnabled: the membership and "no other id changes" guarantees hold only for storable ids, which are non-blank and comma-free. A blank id, or one containing a comma, does not survive the comma-separated storage. `ShortcutsManager.SeparatorInIdSplitsIt` shows this.
- Wav.WavRoundTrip: requires the RIFF size `36 + 2n` to be below 2^32. The `Int` wrap-around of the two size computations does not change the bytes written below that bound (`Wav.WrappedSizes`), and the fields are read unsigned. The RIFF size field wraps only once `36 + 2n >= 2^32`, which is `n >= 2^31 - 18` samples, beyond the point where the Kotlin code can no longer allocate the file (see `Wav.ConvertToWav` below).
- Wav.SizeFields: the same bound on `36 + 2n` below 2^32 as `Wav.WavRoundTrip`, for the same reason.
- Wav.WavLayout: the same bound on `36 + 2n` below 2^32 as `Wav.WavRoundTrip`, for the same reason.
- Wav.CanonicalHeaderParses: the same bound on `36 + 2n` below 2^32 as `Wav.WavRoundTrip`, for the same reason.
- Wav.CanonicalHeaderFields: the same bound on `36 + 2n` below 2^32 as `Wav.WavRoundTrip`, for the same reason.
- ShortcutsManager.SetShortcutEnabledIdempotent: the equality of whole stores is stated only for a storable id or for disabling. Enabling an id that is blank or contains a comma appends it to the stored text again on every call, so the text grows (`ShortcutsManager.EnablingTwiceGrowsText`). The set read back is the same after one or two calls for every id (`ShortcutsManager.SetShortcutEnabledReadIdempotent`).
- ShortcutRegistry.Associate: Kotlin's `associate` returns a `LinkedHashMap` that iterates in first-insertion order. The model's `map` keeps the keys and values but not that iteration order. Code that iterates the returned map sees the actions in that order; the model does not state it.
- Bytes.WriteBytes: `DataOutputStream.writeBytes` writes one byte per UTF-16 code unit, and the model writes one per Unicode scalar value. They agree on every character of the Basic Multilingual Plane. A language string with a character outside it would be written one byte shorter per such character than by the Kotlin code. Language strings are assumed to be ASCII.
- Wav.ConvertToWav: returns a file of `44 + 2n` bytes for every `n`. The Kotlin code collects the file in a `ByteArrayOutputStream`, and a `ByteArray` holds at most `Int.MAX_VALUE` bytes. So for `n >= 2^30 - 22` it throws `OutOfMemoryError`, which is neither the caught `IOException` nor an `Exception`, and returns no file. That failure is not modelled.
