/**
 * `Substring::new` of the `concat` transform: a character-by-character
 * scanner for item specifications of the form `field` or
 * `field[start..end]`, with `u8` bounds.
 */
module ConcatSubstring {
  import opened Options

  /** A `u8` bound. */
  type U8 = x: int | 0 <= x < 256

  /** A parsed item: the field to read and the optional byte range. */
  datatype Substring = Substring(source: string, start: Option<U8>, end: Option<U8>)

  /**
   * What a parse can come to: a value, one of the two error strings of
   * the source, or a panic (the `unwrap`/`assert!` after a '.').
   */
  datatype Outcome<+T> = Ok(value: T) | Err(error: string) | Panic

  const InvalidFormat: string := "invalid format"
  const MissingBracket: string := "invalid format, missing ']'"

  predicate IsDigit(c: char) { '0' <= c <= '9' }

  predicate AllDigits(s: string) { forall i :: 0 <= i < |s| ==> IsDigit(s[i]) }

  /** The decimal value of a digit string. */
  function DecimalValue(ds: string): nat
    requires AllDigits(ds)
  {
    if ds == [] then 0
    else DecimalValue(ds[..|ds| - 1]) * 10 + (ds[|ds| - 1] as int - '0' as int)
  }

  /** `buffer.parse::<u8>()` on a digit buffer, with `Err` read as `None`:
      the empty string and values above 255 do not parse. */
  function ParseU8(ds: string): Option<U8>
    requires AllDigits(ds)
  {
    if ds != [] && DecimalValue(ds) < 256 then Some(DecimalValue(ds)) else None
  }

  /** The end of input outside an unfinished bracket: the buffer is the field name. */
  function Finish(buffer: string): Outcome<Substring>
  {
    if |buffer| > 0 then Ok(Substring(buffer, None, None)) else Err(InvalidFormat)
  }

  /** The outer loop: scanning the field name until the first '['. */
  function ScanName(rest: string, buffer: string): Outcome<Substring>
    decreases |rest|
  {
    if rest == [] then Finish(buffer)
    else if rest[0] == '[' then ScanRange(rest[1..], buffer, None, "")
    else ScanName(rest[1..], buffer + [rest[0]])
  }

  /** The inner loop: scanning `start..end]` after the '['. */
  function ScanRange(rest: string, source: string, start: Option<U8>, buffer: string): Outcome<Substring>
    requires AllDigits(buffer)
    decreases |rest|
  {
    if rest == [] then Finish(buffer)
    else if rest[0] == '.' then
      if |rest| < 2 || rest[1] != '.' then Panic
      else ScanRange(rest[2..], source, ParseU8(buffer), "")
    else if IsDigit(rest[0]) then ScanRange(rest[1..], source, start, buffer + [rest[0]])
    else if rest[0] == ']' then Ok(Substring(source, start, ParseU8(buffer)))
    else Err(MissingBracket)
  }

  /** What `Substring::new(input)` returns. */
  function Parse(input: string): Outcome<Substring>
  {
    ScanName(input, "")
  }

  /** `Substring::new`: the peeking scanner with its two nested loops. */
  method New(input: string) returns (r: Outcome<Substring>)
    ensures r == Parse(input)
  {
    var source: string := "";
    var start: Option<U8> := None;
    var end: Option<U8> := None;
    var buffer: string := "";
    var i := 0;
    while i < |input|
      invariant 0 <= i <= |input|
      invariant ScanName(input[i..], buffer) == Parse(input)
      invariant i < |input| ==> start == None
    {
      var c := input[i];
      if c == '[' {
        assert input[i..][1..] == input[i + 1..];
        source := buffer;
        buffer := "";
        i := i + 1;
        while i < |input|
          invariant 0 <= i <= |input|
          invariant AllDigits(buffer)
          invariant ScanRange(input[i..], source, start, buffer) == Parse(input)
        {
          var d := input[i];
          if d == '.' {
            start := ParseU8(buffer);
            buffer := "";
            i := i + 1;
            if i == |input| || input[i] != '.' {
              return Panic;
            }
            i := i + 1;
          } else if IsDigit(d) {
            buffer := buffer + [d];
            i := i + 1;
          } else if d == ']' {
            end := ParseU8(buffer);
            return Ok(Substring(source, start, end));
          } else {
            return Err(MissingBracket);
          }
        }
      } else {
        i := i + 1;
        buffer := buffer + [c];
      }
    }
    if |buffer| > 0 {
      return Ok(Substring(buffer, None, None));
    }
    return Err(InvalidFormat);
  }

  // ---------------------------------------------------------------------
  // What the scanner accepts, stated over whole inputs.

  /** A body of digits and ".." pairs: what may stand between '[' and ']'. */
  predicate RangeBody(b: string)
    decreases |b|
  {
    || b == []
    || (IsDigit(b[0]) && RangeBody(b[1..]))
    || (|b| >= 2 && b[0] == '.' && b[1] == '.' && RangeBody(b[2..]))
  }

  /** The digits after the last '.' of `s`. */
  function LastRun(s: string): string
  {
    if s == [] || s[|s| - 1] == '.' then [] else LastRun(s[..|s| - 1]) + [s[|s| - 1]]
  }

  /** The digit buffer left after scanning a range body. */
  function BodyBuffer(body: string, buffer: string): (r: string)
    requires RangeBody(body) && AllDigits(buffer)
    ensures AllDigits(r)
    decreases |body|
  {
    if body == [] then buffer
    else if IsDigit(body[0]) then BodyBuffer(body[1..], buffer + [body[0]])
    else BodyBuffer(body[2..], "")
  }

  /** The start bound in force after scanning a range body. */
  function BodyStart(body: string, start: Option<U8>, buffer: string): Option<U8>
    requires RangeBody(body) && AllDigits(buffer)
    decreases |body|
  {
    if body == [] then start
    else if IsDigit(body[0]) then BodyStart(body[1..], start, buffer + [body[0]])
    else BodyStart(body[2..], ParseU8(buffer), "")
  }

  lemma {:induction false} LastRunDigits(s: string)
    requires AllDigits(s)
    ensures LastRun(s) == s
  {
    if s != [] {
      LastRunDigits(s[..|s| - 1]);
      assert s == s[..|s| - 1] + [s[|s| - 1]];
    }
  }

  lemma {:induction false} LastRunAfterDot(x: string, y: string)
    ensures LastRun(x + "." + y) == LastRun(y)
  {
    if y != [] {
      var z := x + "." + y;
      assert z[..|z| - 1] == x + "." + y[..|y| - 1];
      LastRunAfterDot(x, y[..|y| - 1]);
    } else {
      assert (x + "." + y)[|x + "." + y| - 1] == '.';
    }
  }


  lemma {:induction false} BodyBufferIsLastRun(body: string, buffer: string)
    requires RangeBody(body) && AllDigits(buffer)
    ensures BodyBuffer(body, buffer) == LastRun(buffer + body)
    decreases |body|
  {
    if body == [] {
      LastRunDigits(buffer);
      assert buffer + body == buffer;
    } else if IsDigit(body[0]) {
      BodyBufferIsLastRun(body[1..], buffer + [body[0]]);
      assert (buffer + [body[0]]) + body[1..] == buffer + body;
    } else {
      BodyBufferIsLastRun(body[2..], "");
      assert buffer + body == (buffer + ".") + "." + body[2..];
      LastRunAfterDot(buffer + ".", body[2..]);
      assert "" + body[2..] == body[2..];
    }
  }

  // ---------------------------------------------------------------------
  // Stepping lemmas: how the two loops consume whole stretches of input.

  /** Outside brackets, every character other than '[' joins the name. */
  lemma {:induction false} ScanNamePlain(rest: string, buffer: string)
    requires '[' !in rest
    ensures ScanName(rest, buffer) == Finish(buffer + rest)
    decreases |rest|
  {
    if rest == [] {
      assert buffer + rest == buffer;
    } else {
      ScanNamePlain(rest[1..], buffer + [rest[0]]);
      assert (buffer + [rest[0]]) + rest[1..] == buffer + rest;
    }
  }

  /** The first '[' ends the name and starts the range scanner. */
  lemma {:induction false} ScanNameToBracket(name: string, rest: string, buffer: string)
    requires '[' !in name
    ensures ScanName(name + "[" + rest, buffer) == ScanRange(rest, buffer + name, None, "")
    decreases |name|
  {
    var input := name + "[" + rest;
    if name == [] {
      assert input == "[" + rest && input[1..] == rest;
      assert buffer + name == buffer;
    } else {
      assert input[0] == name[0] && input[1..] == name[1..] + "[" + rest;
      ScanNameToBracket(name[1..], rest, buffer + [name[0]]);
      assert (buffer + [name[0]]) + name[1..] == buffer + name;
    }
  }

  /** Digits inside brackets only grow the buffer. */
  lemma {:induction false} ScanDigits(ds: string, rest: string, source: string, start: Option<U8>, buffer: string)
    requires AllDigits(ds) && AllDigits(buffer)
    ensures ScanRange(ds + rest, source, start, buffer) == ScanRange(rest, source, start, buffer + ds)
    decreases |ds|
  {
    if ds == [] {
      assert ds + rest == rest && buffer + ds == buffer;
    } else {
      assert (ds + rest)[0] == ds[0] && (ds + rest)[1..] == ds[1..] + rest;
      ScanDigits(ds[1..], rest, source, start, buffer + [ds[0]]);
      assert (buffer + [ds[0]]) + ds[1..] == buffer + ds;
    }
  }

  /** A range body is consumed whole, leaving the scanner in a state that
      does not depend on what follows it. */
  lemma {:induction false} ConsumeBody(body: string, rest: string, source: string, start: Option<U8>, buffer: string)
    requires RangeBody(body) && AllDigits(buffer)
    ensures ScanRange(body + rest, source, start, buffer)
         == ScanRange(rest, source, BodyStart(body, start, buffer), BodyBuffer(body, buffer))
    decreases |body|
  {
    if body == [] {
      assert body + rest == rest;
    } else if IsDigit(body[0]) {
      assert (body + rest)[0] == body[0] && (body + rest)[1..] == body[1..] + rest;
      ConsumeBody(body[1..], rest, source, start, buffer + [body[0]]);
    } else {
      assert (body + rest)[0] == '.' && (body + rest)[1] == '.' && (body + rest)[2..] == body[2..] + rest;
      ConsumeBody(body[2..], rest, source, ParseU8(buffer), "");
    }
  }

  // ---------------------------------------------------------------------
  // The outcomes of `Substring::new`, input shape by input shape.

  /** An input with no '[' is a plain field name; the empty input is rejected. */
  lemma PlainName(input: string)
    requires '[' !in input
    ensures input != [] ==> Parse(input) == Ok(Substring(input, None, None))
    ensures input == [] ==> Parse(input) == Err(InvalidFormat)
  {
    ScanNamePlain(input, "");
    assert "" + input == input;
  }

  /** `name[a..b]` gives the name and both bounds; an empty or too large
      digit run gives no bound. Anything after the ']' is ignored. */
  lemma BracketedRange(name: string, a: string, b: string, trailing: string)
    requires '[' !in name && AllDigits(a) && AllDigits(b)
    ensures Parse(name + "[" + a + ".." + b + "]" + trailing) == Ok(Substring(name, ParseU8(a), ParseU8(b)))
  {
    var tail := b + "]" + trailing;
    var rest := a + (".." + tail);
    assert name + "[" + a + ".." + b + "]" + trailing == name + "[" + rest;
    ScanNameToBracket(name, rest, "");
    assert "" + name == name;
    ScanDigits(a, ".." + tail, name, None, "");
    assert "" + a == a;
    assert (".." + tail)[0] == '.' && (".." + tail)[1] == '.' && (".." + tail)[2..] == tail;
    assert ScanRange(".." + tail, name, None, a) == ScanRange(tail, name, ParseU8(a), "");
    assert tail == b + ("]" + trailing);
    ScanDigits(b, "]" + trailing, name, ParseU8(a), "");
    assert "" + b == b;
  }

  /** `name[b]` gives the name and only an end bound. */
  lemma BracketedEnd(name: string, b: string, trailing: string)
    requires '[' !in name && AllDigits(b)
    ensures Parse(name + "[" + b + "]" + trailing) == Ok(Substring(name, None, ParseU8(b)))
  {
    var rest := b + ("]" + trailing);
    assert name + "[" + b + "]" + trailing == name + "[" + rest;
    ScanNameToBracket(name, rest, "");
    assert "" + name == name;
    ScanDigits(b, "]" + trailing, name, None, "");
    assert "" + b == b;
  }

  /** Everything after the first ']' that closes a range body is ignored;
      the end bound is parsed from the digits after the last "..", and the
      start bound is the one parsed at that last "..". */
  lemma TrailingIgnored(name: string, body: string, t1: string, t2: string)
    requires '[' !in name && RangeBody(body)
    ensures Parse(name + "[" + body + "]" + t1) == Parse(name + "[" + body + "]" + t2)
    ensures Parse(name + "[" + body + "]" + t1).Ok?
    ensures Parse(name + "[" + body + "]" + t1).value.source == name
    ensures Parse(name + "[" + body + "]" + t1)
         == Ok(Substring(name, BodyStart(body, None, ""), ParseU8(BodyBuffer(body, ""))))
  {
    assert name + "[" + body + "]" + t1 == name + "[" + (body + ("]" + t1));
    assert name + "[" + body + "]" + t2 == name + "[" + (body + ("]" + t2));
    ScanNameToBracket(name, body + ("]" + t1), "");
    ScanNameToBracket(name, body + ("]" + t2), "");
    assert "" + name == name;
    ConsumeBody(body, "]" + t1, name, None, "");
    ConsumeBody(body, "]" + t2, name, None, "");
  }

  /** Inside brackets, a character other than a digit, '.' or ']' is an error. */
  lemma BadBracketChar(name: string, body: string, c: char, trailing: string)
    requires '[' !in name && RangeBody(body)
    requires !IsDigit(c) && c != '.' && c != ']'
    ensures Parse(name + "[" + body + [c] + trailing) == Err(MissingBracket)
  {
    assert name + "[" + body + [c] + trailing == name + "[" + (body + ([c] + trailing));
    ScanNameToBracket(name, body + ([c] + trailing), "");
    assert "" + name == name;
    ConsumeBody(body, [c] + trailing, name, None, "");
  }

  /** A single '.' inside brackets, followed by the end or by anything but
      a second '.', panics. */
  lemma LonePeriodPanics(name: string, body: string, trailing: string)
    requires '[' !in name && RangeBody(body)
    requires trailing == [] || trailing[0] != '.'
    ensures Parse(name + "[" + body + "." + trailing) == Panic
  {
    assert name + "[" + body + "." + trailing == name + "[" + (body + ("." + trailing));
    ScanNameToBracket(name, body + ("." + trailing), "");
    assert "" + name == name;
    ConsumeBody(body, "." + trailing, name, None, "");
  }

  /** An unterminated bracket: the digits after the last ".." (or after the
      '[') become the field name, or the input is rejected if there are none. */
  lemma Unterminated(name: string, body: string)
    requires '[' !in name && RangeBody(body)
    ensures Parse(name + "[" + body) == Finish(LastRun(body))
  {
    assert body == body + [];
    ScanNameToBracket(name, body + [], "");
    assert "" + name == name;
    ConsumeBody(body, [], name, None, "");
    BodyBufferIsLastRun(body, "");
    assert "" + body == body;
  }
}
