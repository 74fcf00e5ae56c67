# CipherCraft page script, modelled in Dafny

CipherCraft is a client-side text encryption widget: a text area, buttons that AES-encrypt or
decrypt its contents with a key kept in the browser's `localStorage`, and a copy-to-clipboard
button. All of its own logic lives in `script.js`. This project models that logic:

- `hex_key.dfy`, module `HexKey`: the key encoding of `generateSecretKey`. Each of the 16 random
  bytes is written with `toString(16)`, a `'0'` is prefixed, `slice(-2)` keeps the last two
  characters, and the pieces are joined. Each step is modelled as written. It is then proved
  that every byte becomes exactly two lower-case hexadecimal digits, high digit first. The
  encoding gets an inverse, `DecodeHex`, with round trips in both directions.
- `js_strings.dfy`, module `JsStrings`: `String.prototype.trim`, over the exact set of code
  points ECMAScript counts as white space or line terminators. `copyText` uses it to detect a
  blank message.
- `key_store.dfy`, module `KeyStore`: `localStorage` as a class holding a map from names to
  strings, the two wrappers for the entry `'secretKey'`, and the load-or-generate rule written
  as a function (`LoadKey`). Lemmas state the lifecycle: reuse, generation, empty string treated
  as absent, idempotent reload.
- `widget.dfy`, module `Widget`: the page as a class. It holds the module-level `secretKey`
  and the values of the two form fields. Its constructor is the page load. Its methods are the
  three button handlers, and their frames name exactly the fields each handler writes.
- `wrappers.dfy`, module `Wrappers`: `Option`, used for `getItem`'s `null`.

The random bytes are a parameter of the page load. The AES library, its UTF-8 decoding and
`toUpperCase` are function-valued parameters of the handlers, so no property depends on what
they compute. A library call answers None where it throws. The handler then stops before it
assigns anything, reports `thrown`, and both fields keep their values.

The comments beside the key initialisation are looser than the code, and this model follows
the code. The comments at script.js:45-49 and 54 describe the falsy case as "no value stored".
The code tests `!secretKey` (script.js:55), so a stored empty string is also replaced by a fresh
key (`KeyStore.LoadKeyEmptyIsAbsent`), as the "(empty or undefined)" of script.js:53 says. The
absent case is `null`, which is what `getItem` returns, not `undefined`.

## Model

| member | source | states |
|---|---|---|
| `HexKey.HexDigit` | script.js:21 | the digit `toString(16)` writes for a value below 16 is in `0-9a-f`, is a decimal digit exactly when the value is below 10, and is `'0'` exactly for 0 |
| `HexKey.DigitValue` | script.js:21 | one character read as a hex digit: defined exactly on `0-9a-f`, below 16, and the inverse of `HexDigit` |
| `HexKey.ToHexString` | script.js:21 | `n.toString(16)` has at least one digit, all in `0-9a-f`; it has one digit exactly when `n < 16`; it starts with `'0'` only for 0 (no leading zeros) |
| `HexKey.ToHexStringRoundTrip` | script.js:21 | reading the digits of `n.toString(16)` back as a hexadecimal number gives `n` |
| `HexKey.SliceLast` | script.js:21 | `s.slice(-k)` is the last k characters of `s`, or all of `s` when it is shorter than k or when k is 0 (`slice(-0)` starts at index 0) |
| `HexKey.ByteToHex` | script.js:21 | `('0' + (byte & 0xff).toString(16)).slice(-2)` is always two characters: the high and the low hex digit of the byte |
| `HexKey.EncodeHex` | script.js:20-22 | the joined encoding is exactly twice as long as the byte sequence |
| `HexKey.EncodeHexAt` | script.js:20-22 | byte i is written at positions 2i and 2i+1, high digit first; position 2i is `'0'` exactly when the byte is below 16 |
| `HexKey.EncodeHexAlphabet` | script.js:20-22 | every character of the encoding is in `0-9a-f` |
| `HexKey.DecodeByte` | script.js:21 | reading a 2-character chunk as a byte succeeds exactly when both characters are in `0-9a-f` |
| `HexKey.DecodeByteToHex` | script.js:21 | the two characters a byte is written as read back as that byte |
| `HexKey.ByteToHexDecodeByte` | script.js:21 | a chunk that reads as a byte is exactly how that byte is written |
| `HexKey.DecodeHex` | script.js:20-22 | the inverse of the encoding: a successful decode has half as many bytes as the string has characters |
| `HexKey.DecodeHexAccepts` | script.js:20-22 | decoding succeeds exactly on even-length strings of `0-9a-f` (both directions) |
| `HexKey.DecodeEncodeHex` | script.js:20-22 | splitting an encoding into 2-character chunks and reading each gives back the bytes |
| `HexKey.EncodeDecodeHex` | script.js:20-22 | encoding whatever decoding accepted gives back the string |
| `HexKey.EncodeHexInjective` | script.js:20-22 | different byte sequences never give the same key |
| `HexKey.GenerateSecretKey` | script.js:17-23 | a key from 16 random bytes has exactly 32 characters, all in `0-9a-f`, and decodes back to those bytes |
| `JsStrings.IsWhiteSpace` | script.js:116 | the characters `trim` strips: the ECMAScript WhiteSpace and LineTerminator code points |
| `JsStrings.LeadingWhiteSpace` | script.js:116 | the count of leading characters `trim` strips: all of them are white space and the next one is not |
| `JsStrings.TrailingWhiteSpace` | script.js:116 | the count of trailing characters `trim` strips: all of them are white space and the one before is not |
| `JsStrings.TrimmedPiece` | script.js:116 | cutting a maximal white-space prefix and suffix leaves nothing exactly when the whole string is white space, and otherwise leaves a piece whose first and last characters are not white space |
| `JsStrings.Trim` | script.js:116 | `trim()` is empty exactly when every character is white space; otherwise it neither starts nor ends with white space; it is a contiguous part of the input, and everything cut from both ends is white space |
| `JsStrings.IsBlank` | script.js:116 | `textToCopy.trim() === ''` holds exactly when every character of the text is white space |
| `KeyStore.Lookup` | script.js:42 | `getItem` answers the stored string when the name is present and `null` (None) exactly when it is absent |
| `KeyStore.Falsy` | script.js:55 | `!secretKey` on what `getItem` answers: true for `null` and for the empty string, false for every other string |
| `KeyStore.LocalStorage.GetItem` | script.js:42 | reading an entry answers what `Lookup` says of the current entries and changes nothing |
| `KeyStore.LocalStorage.SetItem` | script.js:32 | writing an entry sets that name to the value and keeps every other entry |
| `KeyStore.GetKeyFromLocalStorage` | script.js:41-43 | the answer is present exactly when the store has `'secretKey'`, and is then the stored value |
| `KeyStore.SaveKeyToLocalStorage` | script.js:31-33 | after saving, `'secretKey'` holds the key and no other entry changed |
| `KeyStore.LoadKey` | script.js:50-58 | after loading, the store holds a non-empty key under `'secretKey'`, equal to the in-memory key, and every other entry is as before |
| `KeyStore.LoadKeyReuses` | script.js:50-58 | a stored non-empty key is reused unchanged and the store is not written |
| `KeyStore.LoadKeyGenerates` | script.js:55-57 | with no stored key, or an empty one, the key is the encoding of the random bytes: 32 characters of `0-9a-f`, written under `'secretKey'` |
| `KeyStore.LoadKeyEmptyIsAbsent` | script.js:55 | a stored empty string gives the same key and store as no entry at all (the `!secretKey` test) |
| `KeyStore.LoadKeyIdempotent` | script.js:50-58 | a second load, whatever random bytes it would use, ends with the first load's key and store |
| `Widget.DecryptText` | script.js:96-99 | the result is present exactly when the library's decryption and UTF-8 decoding do not throw; the upper-casing transform is applied last, so applying an idempotent transform again changes nothing |
| `Widget.Page.Load` | script.js:50-58 | the page's key and the store are what `LoadKey` gives for the old store; the store then holds the page's key, non-empty; the fields start as the markup sets them |
| `Widget.Page.EncryptButton` | script.js:79-84 | the handler throws exactly when the library throws, and then neither field changes; otherwise the message field receives the encryption of the old input under the page's key and the input is cleared; only those two fields can change |
| `Widget.Page.DecryptButton` | script.js:105-109 | the handler throws exactly when decryption or UTF-8 decoding throws, and then the message and the ciphertext in the input keep their values; otherwise the message field receives the upper-cased decryption of the old input under the page's key and the input is cleared; only those two fields can change |
| `Widget.Page.CopyText` | script.js:114-128 | a blank message (empty or only white space) is left unchanged and no temporary element is made; otherwise the message is the value put into the temporary element (script.js:118) and the field is then cleared; the input field and the key never change |
| `Widget.LoadTwice` | script.js:50-58 | two loads on one store end with the same key, and the store is as the first load left it |

## Left out

- `window.crypto.getRandomValues` (script.js:19): randomness is outside the model; the page load receives the 16 bytes as a parameter.
- `CryptoJS.AES.encrypt`, `CryptoJS.AES.decrypt` and `CryptoJS.enc.Utf8` (script.js:72, 97-98): a foreign library. Its functions are parameters of the handlers, and they answer None where they throw. The encryption draws a random salt, so each call may pass a different function. No encrypt-then-decrypt round trip is claimed.
- `toUpperCase` (script.js:98): its Unicode case mapping is not modelled. It is an arbitrary total function on strings.
- Widget.EncryptText: a pass-through to the library with no contract of its own; its effect is stated in `Widget.Page.EncryptButton`.
- DOM lookups and clipboard mechanics (script.js:8-9, 117-126): `querySelector`, `createElement`, `appendChild`, `select`, `setSelectionRange`, `execCommand('copy')` and `removeChild` are browser I/O. `Widget.Page.CopyText` returns the value put into the temporary element (`staged`), not what reaches the clipboard.
- Widget.Page.CopyText: does not model that `setSelectionRange(0, 99999)` (script.js:122) selects only the first 99999 UTF-16 code units, so a longer message is not copied in full. It also does not model that the result of `execCommand('copy')` (script.js:124) is ignored: the message is cleared at script.js:127 even when nothing was copied.
- Widget.Page.EncryptButton, Widget.Page.DecryptButton: the library's failures are modelled only as "the call threw". The cases that throw (malformed UTF-8 after decryption, a ciphertext that does not parse, a lone surrogate in the input) are the library's business. A lone surrogate cannot occur here, because characters are Unicode scalar values.
- `message.style.backgroundImage = 'none'` (script.js:83): a style write with no logic.
- `localStorage` beyond an in-memory map: quota errors, exceptions from a disabled store, other tabs writing the same entry and storage events.
- Characters are Unicode scalar values, while JavaScript strings are UTF-16 code units. Every character `trim` strips lies in the Basic Multilingual Plane, so blank detection is the same.
- `byte & 0xff` (script.js:21): a `Uint8Array` element is already below 256, so the mask is modelled as `% 256` on a byte type.
- HexKey.GenerateSecretKey: requires exactly 16 bytes, the size of the buffer the source fills.
