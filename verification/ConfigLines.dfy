/** The wpa_supplicant configuration: which networks are enabled, and rewriting the file to enable others. The file is
    a sequence of lines; a line that is not valid text reads as None and ends the reading. */
module ConfigLines {
  const DISABLED_TEXT: string := "    disabled=1"

  predicate IsWhitespace(c: char) {
    || '\t' <= c <= '\r'
    || c == ' ' || c == '\U{85}' || c == '\U{A0}' || c == '\U{1680}'
    || '\U{2000}' <= c <= '\U{200A}'
    || c == '\U{2028}' || c == '\U{2029}' || c == '\U{202F}' || c == '\U{205F}' || c == '\U{3000}'
  }

  function TrimStart(s: string): string {
    if |s| > 0 && IsWhitespace(s[0]) then TrimStart(s[1..]) else s
  }

  function TrimEnd(s: string): string {
    if |s| > 0 && IsWhitespace(s[|s| - 1]) then TrimEnd(s[..|s| - 1]) else s
  }

  function Trim(s: string): string {
    TrimEnd(TrimStart(s))
  }

  function WithoutSpaces(s: string): string {
    if |s| == 0 then [] else (if s[0] == ' ' then [] else [s[0]]) + WithoutSpaces(s[1..])
  }

  function Collapsed(line: string): string {
    WithoutSpaces(Trim(line))
  }

  datatype Kind = Header | Disabled | DisabledOther | Closing | Other

  /** The tests both automata make, in their order. */
  function KindOf(line: string): Kind {
    if "network={" <= Collapsed(line) then Header
    else if "disabled=1" <= Collapsed(line) then Disabled
    else if "disabled=" <= Collapsed(line) then DisabledOther
    else if Trim(line) == "}" then Closing
    else Other
  }

  datatype Line = Line(text: string, kind: Kind)

  const DISABLED_LINE := Line(DISABLED_TEXT, Disabled)

  function Classify(texts: seq<string>): seq<Line> {
    if |texts| == 0 then [] else [Line(texts[0], KindOf(texts[0]))] + Classify(texts[1..])
  }

  function Texts(lines: seq<Line>): seq<string> {
    if |lines| == 0 then [] else [lines[0].text] + Texts(lines[1..])
  }

  /** The kind of a line follows from the tests on its text, however they are nested: a line that passes one of the
      tests fails the others, except that "disabled=1" is a case of "disabled=". */
  lemma KindTests(line: string)
    ensures "network={" <= Collapsed(line) <==> KindOf(line).Header?
    ensures "disabled=1" <= Collapsed(line) <==> KindOf(line).Disabled?
    ensures "disabled=" <= Collapsed(line) <==> KindOf(line).Disabled? || KindOf(line).DisabledOther?
    ensures Trim(line) == "}" <==> KindOf(line).Closing?
  {
    var c := Collapsed(line);
    assert "network={" <= c ==> c[0] == 'n';
    assert "disabled=" <= c ==> c[0] == 'd';
    assert "disabled=1" <= c ==> "disabled=" <= c by {
      assert "disabled=" <= "disabled=1";
    }
    assert Trim(line) == "}" ==> c == "}" by {
      assert WithoutSpaces("}") == "}";
    }
  }

  lemma {:induction false} NothingToCollapse(s: string)
    requires ' ' !in s
    ensures WithoutSpaces(s) == s
  {
    if |s| == 0 {
    } else {
      NothingToCollapse(s[1..]);
    }
  }

  lemma {:induction false} TrimSpaces(spaces: string, rest: string)
    requires forall i :: 0 <= i < |spaces| ==> spaces[i] == ' '
    requires |rest| > 0 && !IsWhitespace(rest[0])
    ensures TrimStart(spaces + rest) == rest
  {
    if |spaces| == 0 {
      assert spaces + rest == rest;
    } else {
      assert (spaces + rest)[1..] == spaces[1..] + rest;
      TrimSpaces(spaces[1..], rest);
    }
  }

  lemma {:induction false} TrimNothing(s: string)
    requires s == "disabled=1"
    ensures TrimEnd(s) == s && ' ' !in s
  {
    assert !IsWhitespace(s[|s| - 1]);
  }

  /** The line the setter writes is one the reader counts as disabling. */
  lemma DisabledKind(line: Line)
    requires line == DISABLED_LINE
    ensures KindOf(line.text) == line.kind
  {
    var spaces, rest := line.text[..4], line.text[4..];
    assert line.text == spaces + rest;
    assert rest == "disabled=1" && rest[0] == 'd' && !IsWhitespace('d');
    assert spaces == "    ";
    TrimSpaces(spaces, rest);
    TrimNothing(rest);
    NothingToCollapse(rest);
    KindTests(line.text);
  }
}
