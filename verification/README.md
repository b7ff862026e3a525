# flix `util.h`: register reads and command-line splitting

This project models the two non-numeric helpers of the flix flight controller's
`flix/util.h` and proves what they promise.

- `readRegister` reads `length` bytes from register `reg` of an I2C device.
  - The register-address phase is `beginTransmission`, `write(reg)` and
    `endTransmission(false)`. The false stop flag keeps the bus claimed.
  - Then it calls `requestFrom(device, length)`.
  - It copies `length` `read()` results into the caller's buffer, but only when
    exactly `length` bytes were reported.
  - It returns a plain `bool`.
- `splitString` trims a command line in place. It then cuts the line with
  `strtok(chars, " ")`, `strtok(NULL, " ")` and `strtok(NULL, "")` into two
  space-free words and the rest of the line.

Modules, one file each:

- `wire.dfy`, module `Wire`: a scripted stand-in for the Arduino `TwoWire`
  driver. It has a fixed `endTransmission` status, a fixed `requestFrom` count
  and a receive queue. Every call made on the bus is appended to a ghost trace,
  so contracts can say which bus calls happened and in what order. `byte` is
  `uint8_t`.
- `cstrings.dfy`, module `CStrings`: the C-string view of a `char` array
  (`CString`) and `strtok`.
  - `strtok` is a pure function of the string, the resumed cursor and the
    delimiter set.
  - `IsScan` states what one call promises. `ScanUnique` shows that this promise
    has exactly one outcome.
- `arduino_strings.dfy`, module `ArduinoStrings`: `String::trim()`, where
  whitespace means C's `isspace`.
- `util.dfy`, module `Util`: `SplitString` and `ReadRegister` as methods.
  - `ThreeWaySplit` is an independent description of the intended split. It is
    proved equivalent to a position-based description (`TokenLayout`).
  - It is proved to determine the tokens uniquely.

What the code does and does not do, as the model keeps it:

- `readRegister` returns a plain `bool`. Its three failure paths differ only
  in the bus calls made and the `Serial` message printed, which the ghost
  `Diagnostic` records.
- It checks only `nullptr` and `length == 0`, not the buffer's capacity.
  Writing past the buffer would be undefined behaviour in C++, so the model
  states `length <= buffer.Length` as the caller's obligation.
- It rejects any byte count other than `length`. That includes more bytes than
  requested, not only fewer.

`read()` of the ESP32 driver returns `-1` when no byte is left. Storing that
into a `uint8_t` gives `0xFF`. The model keeps this: `ToByte` is the
conversion to `uint8_t`, and it is also used for `write(reg)`.

## Model

| member | source | states |
|---|---|---|
| Wire.TwoWire.constructor | flix/util.h:48 | a bus whose `endTransmission` status, `requestFrom` count and receive queue are the given ones, with no calls made yet |
| Wire.TwoWire.BeginTransmission | flix/util.h:55 | records `beginTransmission(device)` and changes nothing else |
| Wire.TwoWire.Write | flix/util.h:56 | records `write(byte)` and changes nothing else |
| Wire.TwoWire.EndTransmission | flix/util.h:57 | returns the bus status and records `endTransmission(sendStop)` |
| Wire.TwoWire.RequestFrom | flix/util.h:63 | returns the number of bytes the device delivered and records `requestFrom(device, quantity)` |
| Wire.TwoWire.Read | flix/util.h:68 | returns and removes the front of the receive queue, or returns -1 when the queue is empty; records one `read()` |
| Util.ToByte | flix/util.h:56 | the `uint8_t` an `int` is stored as differs from it by a multiple of 256, so a value already in 0..255 is kept |
| Util.EofByte | flix/util.h:68 | the -1 that `read()` returns on an empty queue is stored as 0xFF |
| Util.AddressRegister | flix/util.h:55-57 | the address phase is three calls: begin a transmission to the device, write one byte (the register number modulo 256), end without a stop |
| Util.Received | flix/util.h:68 | the byte `buffer[k] = wire->read()` stores: the k-th queued byte while the queue lasts, then what storing -1 gives |
| Util.ReadRegister | flix/util.h:48-77 | returns true exactly when the buffer is non-null, the length is positive, the address phase succeeds and exactly `length` bytes are reported. With a null buffer or zero length it makes no bus call and changes nothing. Otherwise the first calls are begin, write of the register byte and end without stop. On a non-zero status nothing further is called. On a count other than `length` only `requestFrom` follows. On every false path the buffer and the queue are unchanged. On success exactly `length` reads follow, `buffer[k]` is the k-th queued byte (0xFF where the queue ran dry), cells from `length` on are untouched, and the queue loses its first `length` bytes |
| ArduinoStrings.IsSpace | flix/util.h:40 | the characters `trim()` strips are exactly space and the control characters tab to carriage return (0x09-0x0D), as C's `isspace` in the "C" locale |
| ArduinoStrings.TrimStart | flix/util.h:40 | the result is a suffix of the input, everything dropped is whitespace, and it does not start with whitespace |
| ArduinoStrings.TrimEnd | flix/util.h:40 | the result is a prefix of the input, everything dropped is whitespace, and it does not end with whitespace |
| ArduinoStrings.Trim | flix/util.h:40 | the result has no whitespace at either edge and occurs in the input with only whitespace around it |
| ArduinoStrings.TrimUnique | flix/util.h:40 | any text framed by whitespace in the input and without whitespace at its edges is the trimmed text, so `Trim` is the only possible result |
| ArduinoStrings.TrimIdempotent | flix/util.h:40 | trimming a trimmed string changes nothing |
| ArduinoStrings.TrimEmptyIffBlank | flix/util.h:40 | the trimmed text is empty exactly when the input is empty or all whitespace |
| CStrings.CString | flix/util.h:41-42 | the C string in a `char` array is its longest NUL-free prefix: it contains no NUL and ends at the first NUL or at the end |
| CStrings.CStringOfNulFree | flix/util.h:41-42 | a `char` array without NUL is entirely its own C string |
| CStrings.SkipDelimiters | flix/util.h:43 | the first index at or after the cursor that holds no delimiter; everything skipped is a delimiter |
| CStrings.SkipToken | flix/util.h:43 | the first index at or after the start that holds a delimiter; everything skipped is not a delimiter |
| CStrings.Strtok | flix/util.h:43-45 | one `strtok` call meets its promise: NULL exactly at the end of the string after delimiters; otherwise the token starts after the leading delimiters, holds no delimiter, ends at a delimiter or the end, and the cursor moves past that one delimiter |
| CStrings.ScanUnique | flix/util.h:43-45 | that promise determines the outcome: every scan that meets it is `Strtok`'s |
| CStrings.TokenText | flix/util.h:43-45 | the `String` built from a NULL token is empty; otherwise, over a NUL-free array, it is the C string that starts at the token after `strtok` wrote NUL over the delimiter ending it, and so has the characters of the token's range |
| CStrings.CStringUpToNul | flix/util.h:41-42 | a NUL-free prefix that ends at a NUL or at the array's end is the C string of the array |
| Util.SplitString | flix/util.h:39-46 | `str` becomes trimmed: the same characters in the same order, without whitespace at either edge. The three tokens are the three-way split of its C string, and for input without NUL of the trimmed text itself: `token0` runs up to the first space, `token1` is the next space-free run after one or more spaces, `token2` is everything after the single space that ends `token1`, and missing tokens are empty. An empty or all-whitespace input gives three empty tokens |
| Util.StrtokLayout | flix/util.h:43-45 | the tokens of the three `strtok` calls lie in the string as the layout describes |
| Util.StrtokLayoutOneToken | flix/util.h:43-44 | when the second call returns NULL, the first token runs up to the first space (only spaces follow it) and the other two tokens are empty |
| Util.StrtokLayoutTwoTokens | flix/util.h:43-45 | when the second call finds a token, a run of spaces separates the first two tokens, and the third is the rest after the second token's delimiter |
| Util.StrtokRest | flix/util.h:45 | `strtok(NULL, "")` yields all the rest of the string, which is empty when nothing is left |
| Util.SplitLayout | flix/util.h:43-45 | every three-way split has a position-based layout |
| Util.LayoutSplit | flix/util.h:43-45 | every position-based layout is a three-way split |
| Util.LayoutUnique | flix/util.h:43-45 | a string has at most one layout |
| Util.SplitUnique | flix/util.h:43-45 | a string has at most one three-way split, so the tokens are determined by the trimmed text |
| Util.TrimKeepsNulFree | flix/util.h:40-42 | trimming a NUL-free string gives a string that is its own C string |

## Left out

- `mapf` and `mapff` (flix/util.h:14-20) are floating-point arithmetic, and `wrapAngle` (flix/util.h:23-31) reduces a `float` angle with `fmodf`. None of them is modelled: the model has no floating-point arithmetic.
- `disableBrownOut` (flix/util.h:34-36) is a raw hardware register write and is not modelled.
- The `Serial` diagnostics (flix/util.h:51, 59, 74) are output only. `ReadRegister`'s ghost `logged` result records which message is printed; its text is not modelled.
- The real `TwoWire` driver is a foreign library. Only its call interface is modelled, as the scripted `Wire.TwoWire`. Its scripted answers stand in for the device.
- In the scripted bus, the count `requestFrom` reports and the receive queue are independent, and `RequestFrom` does not refill the queue. The ESP32 driver fills the queue with exactly the bytes it counts. So the 0xFF padding in `ReadRegister` arises only on a bus that reports more bytes than it queued; the mock allows more states than the driver reaches, and the contract covers all of them.
- `strtok` writes NUL over the delimiter that ends each token, and the source copies each token into a `String` before the next call. The model keeps the array unchanged and takes each token as an index range; `TokenText` proves that this range is the text read from the overwritten array. The array's contents after the calls are not modelled.
- The `chars` array is sized `str.length() + 1` and `toCharArray` copies the text plus a terminating NUL; the model takes the C string of the trimmed text directly (`CString`).
- The narrowing of `device` and `length` to the driver's parameter widths is not modelled: the ghost trace records them as given.
- A null `wire` is undefined behaviour in the source, which dereferences it without a check. The model excludes it by type: `ReadRegister` takes a non-null `TwoWire`.
- Util.ReadRegister: the buffer capacity is a precondition, not a checked error. The source does not check it, and a shorter buffer would be written out of bounds.
- The compile-time constants of `flix/config.h` (WiFi settings, pins, PWM and battery thresholds) carry no logic and are not modelled. Of note, the emergency battery threshold (3400 per cell) is higher than the critical one (3300 per cell), so those tiers are not ordered by severity.
