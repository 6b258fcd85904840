/** Shader source text: the `#version` / `#define` prefix put in front of both
    shader sources, and the numbered listing printed when a shader fails to
    build. Lines are read as `std::getline` reads them from a string stream:
    a text that does not end in a newline, or an empty text, still yields a
    final line, and the read after the last line fails only after printing
    one more empty line. */
module ShaderText {
  import opened Base

  // ---------------------------------------------------------------------
  // Lines of a text

  lemma {:induction false} ConcatAssoc<T>(a: seq<T>, b: seq<T>, c: seq<T>)
    ensures (a + b) + c == a + (b + c)
  {
  }

  /** Index of the first newline of `s`, or |s| when there is none. */
  function FirstNewline(s: string): (r: nat)
    ensures r <= |s|
    ensures r < |s| ==> s[r] == '\n'
  {
    if s == [] then 0
    else if s[0] == '\n' then 0
    else 1 + FirstNewline(s[1..])
  }

  /** No newline comes before the first one. */
  lemma {:induction false} NoNewlineBeforeFirst(s: string)
    ensures forall j :: 0 <= j < FirstNewline(s) ==> s[j] != '\n'
  {
    if s != [] && s[0] != '\n' {
      NoNewlineBeforeFirst(s[1..]);
      assert forall j :: 1 <= j < FirstNewline(s) ==> s[j] == s[1..][j - 1];
    }
  }

  /** The lines a `getline` loop reads from a string stream over `s`, up to
      and including the read that fails. */
  function StreamLines(s: string): (r: seq<string>)
    ensures |r| >= 1
    decreases |s|
  {
    if s == [] then [""]
    else
      var k := FirstNewline(s);
      if k < |s| then [s[..k]] + StreamLines(s[k + 1..]) else [s, ""]
  }

  /** Lines joined with newlines between them. */
  function JoinLines(lines: seq<string>): string
    requires |lines| >= 1
  {
    if |lines| == 1 then lines[0] else lines[0] + "\n" + JoinLines(lines[1..])
  }

  lemma {:induction false} JoinLinesCons(line: string, tail: seq<string>)
    requires |tail| >= 1
    ensures JoinLines([line] + tail) == line + "\n" + JoinLines(tail)
  {
    assert ([line] + tail)[1..] == tail;
  }

  /** The text a list of lines joins back to: the text itself when it is
      empty or ends in a newline, otherwise the text with a newline added. */
  function Terminated(s: string): string
  {
    if s == [] || s[|s| - 1] == '\n' then s else s + "\n"
  }

  /** Terminating a line, a newline and a rest terminates the rest. */
  lemma {:induction false} TerminatedCons(line: string, rest: string)
    ensures Terminated(line + "\n" + rest) == line + "\n" + Terminated(rest)
  {
    var s := line + "\n" + rest;
    if rest != [] {
      assert s[|s| - 1] == rest[|rest| - 1];
      if rest[|rest| - 1] != '\n' {
        ConcatAssoc(line + "\n", rest, "\n");
      }
    }
  }

  /** A text with a newline is its first line, the newline and the rest. */
  lemma {:induction false} SplitAtNewline(s: string, k: nat)
    requires k < |s| && s[k] == '\n'
    ensures s == s[..k] + "\n" + s[k + 1..]
  {
  }

  /** A text with a newline reads as its first line, then the lines after it. */
  lemma {:induction false} StreamLinesAtNewline(s: string, k: nat)
    requires k == FirstNewline(s) && k < |s|
    ensures StreamLines(s) == [s[..k]] + StreamLines(s[k + 1..])
  {
  }

  /** A text with a newline joins back from its first line and the lines
      after it. */
  lemma {:induction false} StreamLinesJoinStep(s: string, k: nat)
    requires k == FirstNewline(s) && k < |s|
    requires JoinLines(StreamLines(s[k + 1..])) == Terminated(s[k + 1..])
    ensures JoinLines(StreamLines(s)) == Terminated(s)
  {
    var line, rest := s[..k], s[k + 1..];
    StreamLinesAtNewline(s, k);
    JoinLinesCons(line, StreamLines(rest));
    SplitAtNewline(s, k);
    TerminatedCons(line, rest);
  }

  /** The lines read give back the text: exactly, when it is empty or ends
      in a newline, and with one newline added otherwise. */
  lemma {:induction false} StreamLinesJoin(s: string)
    ensures JoinLines(StreamLines(s)) == Terminated(s)
    decreases |s|
  {
    if s != [] {
      var k := FirstNewline(s);
      if k < |s| {
        StreamLinesJoin(s[k + 1..]);
        StreamLinesJoinStep(s, k);
      } else {
        NoNewlineBeforeFirst(s);
        assert JoinLines(StreamLines(s)) == s + "\n" + "";
      }
    }
  }

  /** No line read contains a newline. */
  lemma {:induction false} StreamLinesHaveNoNewline(s: string)
    ensures forall i :: 0 <= i < |StreamLines(s)| ==> '\n' !in StreamLines(s)[i]
    decreases |s|
  {
    if s != [] {
      var k := FirstNewline(s);
      NoNewlineBeforeFirst(s);
      if k < |s| {
        StreamLinesHaveNoNewline(s[k + 1..]);
        assert '\n' !in s[..k];
        var r := StreamLines(s);
        forall i | 0 <= i < |r|
          ensures '\n' !in r[i]
        {
          if i > 0 {
            assert r[i] == StreamLines(s[k + 1..])[i - 1];
          }
        }
      }
    }
  }

  /** A line followed by a newline is read as that line, then the rest. */
  lemma {:induction false} StreamLinesCons(a: string, b: string)
    requires '\n' !in a
    ensures StreamLines(a + "\n" + b) == [a] + StreamLines(b)
  {
    var s := a + "\n" + b;
    assert FirstNewline(s) == |a| by {
      NoNewlineBeforeFirst(s);
      assert s[|a|] == '\n';
      assert forall j :: 0 <= j < |a| ==> s[j] == a[j];
    }
    assert s[..|a|] == a && s[|a| + 1..] == b;
  }

  // ---------------------------------------------------------------------
  // The stream a listing reads from

  /** One `getline` on a stream with unread text `rest` and end-of-file flag
      `eof`: the line read, the text left, and the new end-of-file and
      failure flags. A read at the end fails; a last line without a newline
      sets end-of-file but succeeds. */
  function GetLine(rest: string, eof: bool): (string, string, bool, bool)
  {
    if eof || rest == [] then ("", rest, true, true)
    else
      var k := FirstNewline(rest);
      if k < |rest| then (rest[..k], rest[k + 1..], false, false) else (rest, [], true, false)
  }

  /** The lines a stream in this state still yields. */
  function Remaining(rest: string, eof: bool, fail: bool): seq<string>
  {
    if fail then [] else if eof then [""] else StreamLines(rest)
  }

  /** A read takes the first remaining line. */
  lemma {:induction false} GetLineTakesFirst(rest: string, eof: bool)
    ensures var read := GetLine(rest, eof);
            Remaining(rest, eof, false) == [read.0] + Remaining(read.1, read.2, read.3)
  {
  }

  // ---------------------------------------------------------------------
  // Decimal counters

  function Digit(d: nat): char
    requires d < 10
  {
    "0123456789"[d]
  }

  /** The decimal form `<<` writes for `n`. */
  function NatToString(n: nat): (r: string)
    ensures 1 <= |r|
  {
    if n < 10 then [Digit(n)] else NatToString(n / 10) + [Digit(n % 10)]
  }

  function DigitValue(c: char): nat
  {
    if '0' <= c <= '9' then (c as int - '0' as int) as nat else 0
  }

  /** Reading a decimal string back. */
  function ParseNat(s: string): nat
  {
    if s == [] then 0 else ParseNat(s[..|s| - 1]) * 10 + DigitValue(s[|s| - 1])
  }

  /** The counter reads back as the number it was written from. */
  lemma {:induction false} NatToStringRoundTrip(n: nat)
    ensures ParseNat(NatToString(n)) == n
  {
    var s := NatToString(n);
    if n >= 10 {
      NatToStringRoundTrip(n / 10);
      assert s[..|s| - 1] == NatToString(n / 10);
    }
  }

  function Pow10(k: nat): nat
  {
    if k == 0 then 1 else 10 * Pow10(k - 1)
  }

  /** A number below 10^k has at most k digits. */
  lemma {:induction false} NatToStringLength(n: nat, k: nat)
    requires 1 <= k && n < Pow10(k)
    ensures |NatToString(n)| <= k
  {
    if n >= 10 {
      assert k >= 2;
      NatToStringLength(n / 10, k - 1);
    }
  }

  /** `k` spaces; none when `k` is not positive. */
  function Spaces(k: int): string
    decreases k
  {
    if k <= 0 then "" else Spaces(k - 1) + " "
  }

  /** One line of a listing: the counter padded with spaces to five
      characters, a colon, the line, and a newline. */
  function FormatLine(count: nat, line: string): string
  {
    NatToString(count) + Spaces(5 - |NatToString(count)|) + ": " + line + "\n"
  }

  /** Every counter a listing can print takes exactly five characters with
      its padding, so the colons line up. */
  lemma {:induction false} CounterWidth(count: nat)
    requires count <= 10000
    ensures |NatToString(count) + Spaces(5 - |NatToString(count)|)| == 5
  {
    NatToStringLength(count, 5);
    SpacesLength(5 - |NatToString(count)|);
  }

  lemma {:induction false} SpacesLength(k: int)
    ensures |Spaces(k)| == if k <= 0 then 0 else k
    decreases k
  {
    if k > 0 {
      SpacesLength(k - 1);
    }
  }

  /** `lines` numbered from 1. */
  function Numbered(lines: seq<string>): string
  {
    if lines == [] then "" else Numbered(lines[..|lines| - 1]) + FormatLine(|lines|, lines[|lines| - 1])
  }

  /** Numbering two runs of lines numbers the second run on from the first. */
  lemma {:induction false} NumberedAppend(lines: seq<string>, line: string)
    ensures Numbered(lines + [line]) == Numbered(lines) + FormatLine(|lines| + 1, line)
  {
    assert (lines + [line])[..|lines|] == lines;
  }

  /** The lines a listing prints: those a `getline` loop reads, at most 10000. */
  function ListedLines(text: string): (r: seq<string>)
    ensures |r| <= 10000
  {
    var lines := StreamLines(text);
    lines[..Min(|lines|, 10000)]
  }

  /** Writes one line of a listing: the counter, the spaces that pad it to
      five characters, a colon, the line and a newline. */
  method PrintLine(out: string, count: nat, linestr: string) returns (out': string)
    ensures out' == out + FormatLine(count, linestr)
  {
    var countstr := NatToString(count);
    out' := out + countstr;
    var i := 0;
    while i < 5 - |countstr|
      invariant 0 <= i && (i <= 5 - |countstr| || i == 0)
      invariant out' == out + countstr + Spaces(i)
    {
      out' := out' + " ";
      i := i + 1;
    }
    assert Spaces(i) == Spaces(5 - |countstr|);
    out' := out' + ": " + linestr + "\n";
  }

  /** The state of a listing: the lines printed so far, followed by the
      lines the stream still yields, are the lines of the text, and the
      output is the printed lines numbered from 1. */
  ghost predicate ListingState(str: string, rest: string, eof: bool, fail: bool, printed: seq<string>, out: string)
  {
    printed + Remaining(rest, eof, fail) == StreamLines(str) && out == Numbered(printed)
  }

  /** One round of the listing loop: read a line, print it numbered. */
  lemma {:induction false} ListingStep(str: string, rest: string, eof: bool, printed: seq<string>, out: string)
    requires ListingState(str, rest, eof, false, printed, out)
    ensures var read := GetLine(rest, eof);
            ListingState(str, read.1, read.2, read.3, printed + [read.0], out + FormatLine(|printed| + 1, read.0))
  {
    var read := GetLine(rest, eof);
    GetLineTakesFirst(rest, eof);
    assert (printed + [read.0]) + Remaining(read.1, read.2, read.3)
        == printed + ([read.0] + Remaining(read.1, read.2, read.3));
    NumberedAppend(printed, read.0);
  }

  /** The listing printed for a shader that fails to build: each line of the
      text, numbered from 1, stopping after 10000 lines. */
  method PrintWithLineNumbers(str: string) returns (out: string)
    ensures out == Numbered(ListedLines(str))
  {
    var rest := str;
    var eof := false;
    var fail := false;
    var count := 0;
    ghost var printed: seq<string> := [];
    out := "";
    while !fail && count < 10000
      invariant count == |printed| <= 10000
      invariant ListingState(str, rest, eof, fail, printed, out)
      decreases 10000 - count
    {
      count := count + 1;
      ListingStep(str, rest, eof, printed, out);
      var read := GetLine(rest, eof);
      var linestr := read.0;
      rest, eof, fail := read.1, read.2, read.3;
      out := PrintLine(out, count, linestr);
      printed := printed + [linestr];
    }
    assert printed == StreamLines(str)[..|printed|];
  }

  // ---------------------------------------------------------------------
  // The prefix of both shader sources

  /** The directive for one define. */
  function Directive(d: string): string
  {
    "#define " + d
  }

  /** The `#define` lines, in order. */
  function DefineLines(defines: seq<string>): string
  {
    if defines == [] then ""
    else DefineLines(defines[..|defines| - 1]) + Directive(defines[|defines| - 1]) + "\n"
  }

  /** The version directive every shader source starts with. */
  const Version: string := "#version 120"

  /** What is put in front of each shader source. */
  function DefinePrefix(defines: seq<string>): string
  {
    Version + "\n" + DefineLines(defines)
  }

  /** Builds the prefix a define at a time. */
  method BuildPrefix(defines: seq<string>) returns (prefix: string)
    ensures prefix == DefinePrefix(defines)
  {
    prefix := Version + "\n";
    var i := 0;
    while i < |defines|
      invariant 0 <= i <= |defines|
      invariant prefix == Version + "\n" + DefineLines(defines[..i])
    {
      assert defines[..i + 1][..i] == defines[..i];
      prefix := prefix + "#define " + defines[i] + "\n";
      i := i + 1;
    }
    assert defines[..|defines|] == defines;
  }

  lemma {:induction false} NoNewlineConcat(a: string, b: string)
    requires '\n' !in a && '\n' !in b
    ensures '\n' !in a + b
  {
    forall j | 0 <= j < |a + b|
      ensures (a + b)[j] != '\n'
    {
      if j < |a| {
        assert (a + b)[j] == a[j];
      } else {
        assert (a + b)[j] == b[j - |a|];
      }
    }
  }

  /** The `#define` directives as lines. */
  function DirectiveLines(defines: seq<string>): (r: seq<string>)
    ensures |r| == |defines|
  {
    if defines == [] then []
    else DirectiveLines(defines[..|defines| - 1]) + [Directive(defines[|defines| - 1])]
  }

  /** The last define's line, moved from the prefix onto the text after it. */
  lemma {:induction false} DefineLinesLast(defines: seq<string>, text: string)
    requires defines != []
    ensures DefineLines(defines) + text
            == DefineLines(defines[..|defines| - 1]) + (Directive(defines[|defines| - 1]) + "\n" + text)
  {
    var n := |defines| - 1;
    var a, d, nl := DefineLines(defines[..n]), Directive(defines[n]), "\n";
    assert DefineLines(defines) == (a + d) + nl;
    ConcatAssoc(a, d, nl);
    ConcatAssoc(a, d + nl, text);
  }

  lemma {:induction false} DefineLinesRead(defines: seq<string>, text: string)
    requires forall i :: 0 <= i < |defines| ==> '\n' !in defines[i]
    ensures StreamLines(DefineLines(defines) + text) == DirectiveLines(defines) + StreamLines(text)
    decreases |defines|
  {
    if defines != [] {
      var n := |defines| - 1;
      var d := Directive(defines[n]);
      assert '\n' !in d by {
        NoNewlineConcat("#define ", defines[n]);
      }
      var text' := d + "\n" + text;
      StreamLinesCons(d, text);
      assert forall i :: 0 <= i < n ==> defines[..n][i] == defines[i];
      DefineLinesRead(defines[..n], text');
      DefineLinesLast(defines, text);
      assert DirectiveLines(defines) == DirectiveLines(defines[..n]) + [d];
      ConcatAssoc(DirectiveLines(defines[..n]), [d], StreamLines(text));
    } else {
      assert DefineLines(defines) + text == text;
      assert DirectiveLines(defines) + StreamLines(text) == StreamLines(text);
    }
  }

  /** With defines that are single lines, the prefixed source reads as the
      version line, one line per define in order, then the original lines:
      line `n` of the original is line `n + |defines| + 1` of the listing. */
  lemma {:induction false} PrefixedLines(defines: seq<string>, text: string)
    requires forall i :: 0 <= i < |defines| ==> '\n' !in defines[i]
    ensures StreamLines(DefinePrefix(defines) + text)
            == [Version] + DirectiveLines(defines) + StreamLines(text)
  {
    DefineLinesRead(defines, text);
    ConcatAssoc(Version + "\n", DefineLines(defines), text);
    StreamLinesCons(Version, DefineLines(defines) + text);
    ConcatAssoc([Version], DirectiveLines(defines), StreamLines(text));
  }
}
