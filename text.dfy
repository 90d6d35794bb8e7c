/**
 * The formatting primitives the core uses on its messages and values:
 * `[T]::join(sep)` and `str::replace("\n", "\n\t")`.
 */
module Text {

  /** `pieces.join(sep)`: the pieces in order, with `sep` between neighbours. */
  function Join<T>(pieces: seq<seq<T>>, sep: seq<T>): seq<T>
  {
    if pieces == [] then []
    else if |pieces| == 1 then pieces[0]
    else Join(pieces[..|pieces| - 1], sep) + sep + pieces[|pieces| - 1]
  }

  /** Total length of the pieces. */
  function TotalLength<T>(pieces: seq<seq<T>>): nat
  {
    if pieces == [] then 0 else TotalLength(pieces[..|pieces| - 1]) + |pieces[|pieces| - 1]|
  }

  /** The separator occurs exactly once between each pair of neighbours and nowhere else. */
  lemma {:induction false} JoinLength<T>(pieces: seq<seq<T>>, sep: seq<T>)
    ensures pieces != [] ==> |Join(pieces, sep)| == TotalLength(pieces) + (|pieces| - 1) * |sep|
    ensures pieces == [] ==> Join(pieces, sep) == []
  {
    if |pieces| > 1 {
      var init := pieces[..|pieces| - 1];
      JoinLength(init, sep);
      var k := |init| - 1;
      assert (k + 1) * |sep| == k * |sep| + |sep|;
    }
  }

  /** Joining one more piece appends the separator and that piece. */
  lemma {:induction false} JoinSnoc<T>(pieces: seq<seq<T>>, p: seq<T>, sep: seq<T>)
    ensures Join(pieces + [p], sep) == if pieces == [] then p else Join(pieces, sep) + sep + p
  {
    assert (pieces + [p])[..|pieces|] == pieces;
  }

  /** `s.replace("\n", "\n\t")`: every line break is followed by a tab. */
  function Indent(s: string): string
  {
    if s == [] then []
    else (if s[0] == '\n' then "\n\t" else [s[0]]) + Indent(s[1..])
  }

  /** The inverse rewriting: every "\n\t" back to "\n". */
  function Unindent(s: string): string
  {
    if s == [] then []
    else if |s| >= 2 && s[0] == '\n' && s[1] == '\t' then "\n" + Unindent(s[2..])
    else [s[0]] + Unindent(s[1..])
  }

  /** Indenting loses nothing: removing the inserted tabs gives the text back. */
  lemma {:induction false} UnindentIndent(s: string)
    ensures Unindent(Indent(s)) == s
  {
    if s != [] {
      UnindentIndent(s[1..]);
      var rest := Indent(s[1..]);
      if s[0] == '\n' {
        assert Indent(s) == "\n\t" + rest;
        UnindentBreak(rest);
      } else {
        assert Indent(s) == [s[0]] + rest;
        UnindentOther(s[0], rest);
      }
    }
  }

  lemma UnindentBreak(rest: string)
    ensures Unindent("\n\t" + rest) == "\n" + Unindent(rest)
  {
    assert ("\n\t" + rest)[2..] == rest;
  }

  lemma UnindentOther(c: char, rest: string)
    requires c != '\n'
    ensures Unindent([c] + rest) == [c] + Unindent(rest)
  {
    assert ([c] + rest)[1..] == rest;
  }

  /** In the indented text every line break is followed by a tab, and only
      the line breaks of the input grow: one tab is added per line break. */
  lemma {:induction false} IndentTabsEveryBreak(s: string)
    ensures var r := Indent(s);
      && |r| == |s| + LineBreaks(s)
      && forall i :: 0 <= i < |r| && r[i] == '\n' ==> i + 1 < |r| && r[i + 1] == '\t'
  {
    if s != [] {
      IndentTabsEveryBreak(s[1..]);
      var rest := Indent(s[1..]);
      var head: string := if s[0] == '\n' then "\n\t" else [s[0]];
      assert Indent(s) == head + rest;
      forall i | 0 <= i < |head + rest| && (head + rest)[i] == '\n'
        ensures i + 1 < |head + rest| && (head + rest)[i + 1] == '\t'
      {
        if i >= |head| {
          assert (head + rest)[i] == rest[i - |head|];
        }
      }
    }
  }

  /** Number of line breaks in `s`. */
  function LineBreaks(s: string): nat
  {
    if s == [] then 0 else (if s[0] == '\n' then 1 else 0) + LineBreaks(s[1..])
  }
}
