/**
 * Splitting a text file into lines the way `while (getline(stream, line))`
 * does in LoadWords and LoadImageNamesSolutions: every '\n' ends a line and
 * is dropped, a last line without a terminating '\n' is still read, and a
 * text ending in '\n' yields no trailing empty line.
 */
module Lines {

  /** No character of `s` is a newline. */
  predicate NoNewline(s: string) {
    forall j :: 0 <= j < |s| ==> s[j] != '\n'
  }

  /** Position of the first '\n' of `s`, or |s| when there is none. */
  function FindNewline(s: string): (i: nat)
    ensures i <= |s|
    ensures forall j :: 0 <= j < i ==> s[j] != '\n'
    ensures i < |s| ==> s[i] == '\n'
  {
    if |s| == 0 || s[0] == '\n' then 0
    else 1 + FindNewline(s[1..])
  }

  /** The lines a getline loop reads from `text`, in order. */
  function GetLines(text: string): (lines: seq<string>)
    ensures forall k :: 0 <= k < |lines| ==> NoNewline(lines[k])
    ensures |lines| == 0 <==> |text| == 0
    decreases |text|
  {
    if |text| == 0 then []
    else
      var i := FindNewline(text);
      if i == |text| then [text]
      else [text[..i]] + GetLines(text[i + 1..])
  }

  /** Every line followed by '\n', concatenated: the file a list of lines is written as. */
  function Unlines(lines: seq<string>): (text: string)
    ensures |text| == 0 <==> |lines| == 0
    ensures |lines| > 0 ==> text[|text| - 1] == '\n'
  {
    if |lines| == 0 then []
    else lines[0] + "\n" + Unlines(lines[1..])
  }

  /** The first newline of `a + "\n" + b` is the one after `a` when `a` has none. */
  lemma FindNewlineAfter(a: string, b: string)
    requires NoNewline(a)
    ensures FindNewline(a + "\n" + b) == |a|
  {
    var s := a + "\n" + b;
    assert s[|a|] == '\n';
    assert forall j :: 0 <= j < |a| ==> s[j] == a[j];
  }

  /** Lines without '\n' survive being written out and read back. */
  lemma {:induction false} GetLinesOfUnlines(lines: seq<string>)
    requires forall k :: 0 <= k < |lines| ==> NoNewline(lines[k])
    ensures GetLines(Unlines(lines)) == lines
  {
    if |lines| > 0 {
      var a := lines[0];
      var rest := Unlines(lines[1..]);
      var text := Unlines(lines);
      assert text == a + "\n" + rest;
      FindNewlineAfter(a, rest);
      assert text[..|a|] == a;
      assert text[|a| + 1..] == rest;
      GetLinesOfUnlines(lines[1..]);
    }
  }

  /** Unlines of a non-empty list is its first line, a '\n', then the rest. */
  lemma UnlinesCons(line: string, rest: seq<string>)
    ensures Unlines([line] + rest) == line + "\n" + Unlines(rest)
  {
    assert ([line] + rest)[1..] == rest;
  }

  /** A text is the part before a '\n' at position i, that '\n', and the part after. */
  lemma SplitAt(text: string, i: nat)
    requires i < |text| && text[i] == '\n'
    ensures text == text[..i] + "\n" + text[i + 1..]
  {
    var parts := text[..i] + "\n" + text[i + 1..];
    assert |parts| == |text|;
    forall j | 0 <= j < |text|
      ensures parts[j] == text[j]
    {
      if j < i {
        assert parts[j] == text[..i][j];
      } else if j > i {
        assert parts[j] == text[i + 1..][j - i - 1];
      }
    }
  }

  /** Lines read up to the first '\n' and written back give that line, the '\n', then the rest written back. */
  lemma UnlinesOfGetLinesStep(text: string, i: nat)
    requires i == FindNewline(text) < |text|
    ensures Unlines(GetLines(text)) == text[..i] + "\n" + Unlines(GetLines(text[i + 1..]))
  {
    var line := text[..i];
    var later := GetLines(text[i + 1..]);
    assert GetLines(text) == [line] + later;
    UnlinesCons(line, later);
  }

  /** A text that is empty or ends in '\n' is exactly its lines, each followed by '\n'. */
  lemma {:induction false} UnlinesOfGetLines(text: string)
    requires |text| == 0 || text[|text| - 1] == '\n'
    ensures Unlines(GetLines(text)) == text
    decreases |text|
  {
    if |text| > 0 {
      var i := FindNewline(text);
      assert i < |text| by {
        var j := |text| - 1;
        assert text[j] == '\n';
      }
      var rest := text[i + 1..];
      assert |rest| == 0 || rest[|rest| - 1] == text[|text| - 1];
      UnlinesOfGetLines(rest);
      UnlinesOfGetLinesStep(text, i);
      SplitAt(text, i);
    }
  }

  /** A text whose last line has no terminating '\n' reads back with one added. */
  lemma {:induction false} UnlinesOfGetLinesUnterminated(text: string)
    requires |text| > 0 && text[|text| - 1] != '\n'
    ensures Unlines(GetLines(text)) == text + "\n"
    decreases |text|
  {
    var i := FindNewline(text);
    if i < |text| {
      var line := text[..i];
      var rest := text[i + 1..];
      assert |rest| > 0 && rest[|rest| - 1] == text[|text| - 1];
      UnlinesOfGetLinesUnterminated(rest);
      UnlinesOfGetLinesStep(text, i);
      SplitAt(text, i);
      assert text + "\n" == line + "\n" + (rest + "\n");
    } else {
      UnlinesCons(text, []);
    }
  }
}
