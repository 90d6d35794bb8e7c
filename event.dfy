/**
 * A log event as both core files see it: a map from field name to the
 * field's value as bytes (`value.as_bytes()`), and the one constructor the
 * unit-test builder uses, `Event::from(&str)`.
 */
module Event {

  newtype byte = x: int | 0 <= x < 256

  type Bytes = seq<byte>

  type LogEvent = map<string, Bytes>

  /** The field `Event::from(&str)` stores its text in. */
  const MessageKey: string := "message"

  /** UTF-8 encoding of one Unicode scalar value (what `str::as_bytes` yields). */
  function EncodeChar(c: char): (r: Bytes)
    ensures 1 <= |r| <= 4
    ensures (c as int < 0x80) <==> |r| == 1
    ensures |r| == 1 ==> r[0] as int == c as int
  {
    var n := c as int;
    if n < 0x80 then
      [n as byte]
    else if n < 0x800 then
      [(0xC0 + n / 0x40) as byte, (0x80 + n % 0x40) as byte]
    else if n < 0x1_0000 then
      [(0xE0 + n / 0x1000) as byte, (0x80 + (n / 0x40) % 0x40) as byte, (0x80 + n % 0x40) as byte]
    else
      [(0xF0 + n / 0x4_0000) as byte, (0x80 + (n / 0x1000) % 0x40) as byte,
       (0x80 + (n / 0x40) % 0x40) as byte, (0x80 + n % 0x40) as byte]
  }

  /** `s.as_bytes()` for a Rust `String`. */
  function Utf8(s: string): (r: Bytes)
    ensures |r| >= |s|
    ensures s == [] <==> r == []
  {
    if s == [] then [] else EncodeChar(s[0]) + Utf8(s[1..])
  }

  /** `Event::from(s)`: a log event whose only field is the message. */
  function FromMessage(s: string): (e: LogEvent)
    ensures e.Keys == {MessageKey} && e[MessageKey] == Utf8(s)
  {
    map[MessageKey := Utf8(s)]
  }
}
