/**
 * The per-line parsing of the validation list (val.txt) done by
 * LoadImageNamesSolutions: each line read by getline is copied into a
 * NUL-terminated buffer and split with strtok. The first token, delimited by
 * " \n", is an image name; every later token, delimited by " ,.-", goes
 * through atoi and is appended to the ground-truth ids. The two lists are
 * appended to independently, so a line with one token adds a name without an
 * id, and a line such as "x 12-3" adds two ids.
 */
module Validation {
  import opened Wrappers
  import opened Lines
  import opened CStrings
  import opened Decimal

  /** Delimiters of the first strtok call on a line. */
  const FirstDelims: string := " \n"
  /** Delimiters of every later strtok call on the same line. */
  const LaterDelims: string := " ,.-"

  /** What one line contributes: at most one image name, and any number of ids. */
  datatype Entry = Entry(image: Option<string>, ids: seq<int>)

  /** The image names and the ground-truth ids, in file order. */
  datatype Listing = Listing(images: seq<string>, solutions: seq<int>)

  /** atoi applied to each token. */
  function AtoiAll(ts: seq<string>): (vs: seq<int>)
    ensures |vs| == |ts|
    ensures forall k :: 0 <= k < |ts| ==> vs[k] == Atoi(ts[k])
  {
    seq(|ts|, k requires 0 <= k < |ts| => Atoi(ts[k]))
  }

  /** The tokenizer loop run on one getline line. */
  function ParseLine(line: string): (e: Entry)
    ensures e.image.None? <==> AllDelims(CStr(line), FirstDelims)
    ensures e.image.None? ==> e.ids == []
    ensures e.image.Some? ==> IsImageName(e.image.value)
  {
    var first := Strtok(CStr(line), FirstDelims);
    if first.token.None? then Entry(None, [])
    else
      FirstTokenIsImageName(CStr(line));
      Entry(first.token, AtoiAll(Tokens(first.rest, LaterDelims)))
  }

  /** The first token of a C string holds no NUL, since it is a piece of that string. */
  lemma FirstTokenIsImageName(c: string)
    requires '\0' !in c
    ensures Strtok(c, FirstDelims).token.Some? ==> IsImageName(Strtok(c, FirstDelims).token.value)
  {
    StrtokFindsFirstToken(c, FirstDelims);
    var r := Strtok(c, FirstDelims);
    if r.token.Some? {
      var lead := SpanDelims(c, FirstDelims);
      var name := r.token.value;
      forall j | 0 <= j < |name|
        ensures name[j] != '\0'
      {
        assert name[j] == c[lead + j];
      }
    }
  }

  /** The entries of a sequence of lines, one per line. */
  function ParseLines(lines: seq<string>): (es: seq<Entry>)
    ensures |es| == |lines|
    ensures forall k :: 0 <= k < |lines| ==> es[k] == ParseLine(lines[k])
  {
    seq(|lines|, k requires 0 <= k < |lines| => ParseLine(lines[k]))
  }

  /** The image name a line contributes, as a list of zero or one names. */
  function Names(e: Entry): (ns: seq<string>)
    ensures |ns| <= 1
    ensures |ns| == 1 <==> e.image.Some?
  {
    if e.image.Some? then [e.image.value] else []
  }

  /**
   * The names and ids of a sequence of entries, appended entry by entry
   * to two independent lists: images gains one name per entry that has
   * one, solutions every id of every entry.
   */
  function Gather(es: seq<Entry>): (v: Listing)
    ensures |v.images| == NameCount(es) <= |es|
    ensures |v.solutions| == IdCount(es)
  {
    if |es| == 0 then Listing([], [])
    else
      var rest := Gather(es[1..]);
      CountsFromFront(es);
      Listing(Names(es[0]) + rest.images, es[0].ids + rest.solutions)
  }

  /** The first entry's name and ids come first in the two lists, ahead of the rest's. */
  lemma GatherFront(es: seq<Entry>)
    requires |es| > 0
    ensures Gather(es).images == Names(es[0]) + Gather(es[1..]).images
    ensures Gather(es).solutions == es[0].ids + Gather(es[1..]).solutions
  {
    GatherCons(es[0], es[1..]);
    assert [es[0]] + es[1..] == es;
  }

  /** Every image name of the entries is in the image list. */
  lemma {:induction false} GatherKeepsNames(es: seq<Entry>)
    ensures forall k :: 0 <= k < |es| && es[k].image.Some? ==> es[k].image.value in Gather(es).images
  {
    if |es| > 0 {
      GatherKeepsNames(es[1..]);
      GatherFront(es);
      forall k | 1 <= k < |es| && es[k].image.Some?
        ensures es[k].image.value in Gather(es).images
      {
        assert es[k] == es[1..][k - 1];
      }
    }
  }

  /** Every id of the entries is in the ground-truth list. */
  lemma {:induction false} GatherKeepsIds(es: seq<Entry>)
    ensures forall k, j :: 0 <= k < |es| && 0 <= j < |es[k].ids| ==> es[k].ids[j] in Gather(es).solutions
  {
    if |es| > 0 {
      GatherKeepsIds(es[1..]);
      GatherFront(es);
      forall k, j | 1 <= k < |es| && 0 <= j < |es[k].ids|
        ensures es[k].ids[j] in Gather(es).solutions
      {
        assert es[k] == es[1..][k - 1];
      }
    }
  }

  /** The entry a name in the image list comes from. */
  lemma {:induction false} GatherNameSource(es: seq<Entry>, j: nat) returns (k: nat)
    requires j < |Gather(es).images|
    ensures k < |es| && es[k].image.Some? && es[k].image.value == Gather(es).images[j]
  {
    GatherFront(es);
    var head := Names(es[0]);
    if j < |head| {
      k := 0;
    } else {
      var k' := GatherNameSource(es[1..], j - |head|);
      k := k' + 1;
      assert es[k] == es[1..][k'];
    }
  }

  /** Some entry has `name` as its image name. */
  predicate NamedBy(es: seq<Entry>, name: string)
  {
    exists k :: 0 <= k < |es| && es[k].image == Some(name)
  }

  /** Every name in the image list is the image name of some entry. */
  lemma {:induction false} GatherNamesFromEntries(es: seq<Entry>)
    ensures forall j :: 0 <= j < |Gather(es).images| ==> NamedBy(es, Gather(es).images[j])
  {
    forall j | 0 <= j < |Gather(es).images|
      ensures NamedBy(es, Gather(es).images[j])
    {
      var k := GatherNameSource(es, j);
    }
  }

  /** When every entry's name is an image name, so is every name in the image list. */
  lemma {:induction false} GatherOnlyNames(es: seq<Entry>)
    requires forall k :: 0 <= k < |es| && es[k].image.Some? ==> IsImageName(es[k].image.value)
    ensures forall j :: 0 <= j < |Gather(es).images| ==> IsImageName(Gather(es).images[j])
  {
    GatherNamesFromEntries(es);
  }

  /** How many of the entries have an image name: the lines with at least one token. */
  function NameCount(es: seq<Entry>): nat
  {
    if |es| == 0 then 0
    else NameCount(es[..|es| - 1]) + (if es[|es| - 1].image.Some? then 1 else 0)
  }

  /** How many ids the entries hold together. */
  function IdCount(es: seq<Entry>): nat
  {
    if |es| == 0 then 0
    else IdCount(es[..|es| - 1]) + |es[|es| - 1].ids|
  }

  /** Counting from the front gives the same totals as counting from the back. */
  lemma {:induction false} CountsFromFront(es: seq<Entry>)
    requires |es| > 0
    ensures NameCount(es) == (if es[0].image.Some? then 1 else 0) + NameCount(es[1..])
    ensures IdCount(es) == |es[0].ids| + IdCount(es[1..])
    decreases |es|
  {
    if |es| > 1 {
      var n := |es| - 1;
      CountsFromFront(es[..n]);
      assert es[..n][1..] == es[1..][..n - 1];
      assert es[..n][0] == es[0];
      assert es[1..][n - 1] == es[n];
    } else {
      assert es[..0] == [] && es[1..] == [];
    }
  }

  /**
   * LoadImageNamesSolutions on the text of val.txt, the file access left
   * out: at most one image name per line, each a non-empty run of
   * characters that are neither space, '\n' nor NUL.
   */
  function LoadImageNamesSolutions(text: string): (v: Listing)
    ensures |v.images| <= |GetLines(text)|
    ensures forall j :: 0 <= j < |v.images| ==> IsImageName(v.images[j])
    ensures text == [] ==> v == Listing([], [])
  {
    var es := ParseLines(GetLines(text));
    assert forall k :: 0 <= k < |es| && es[k].image.Some? ==> IsImageName(es[k].image.value);
    assert text == [] ==> es == [];
    GatherOnlyNames(es);
    Gather(es)
  }

  /** A line holding a name, one space and the decimal numeral of an id: the format val.txt is written in. */
  function FormatLine(name: string, id: nat): string
  {
    name + " " + NatToDecimal(id)
  }

  /** A name an image can have in val.txt: a first token with no NUL in it. */
  predicate IsImageName(name: string) {
    IsToken(name, FirstDelims) && '\0' !in name
  }

  /** A numeral holds no NUL, no '\n' and no delimiter of either strtok call. */
  lemma NumeralChars(ds: string)
    requires |ds| > 0 && AllDigits(ds)
    ensures '\0' !in ds && NoNewline(ds) && IsToken(ds, LaterDelims)
  {
  }

  /** After the image name and a space, the rest of the line is split into ids with the later delimiters. */
  lemma ParseNameAndIds(name: string, ids: string)
    requires IsImageName(name) && '\0' !in ids
    ensures ParseLine(name + " " + ids) == Entry(Some(name), AtoiAll(Tokens(ids, LaterDelims)))
  {
    var line := name + " " + ids;
    assert '\0' !in line;
    CStrOfNulFree(line);
    StrtokAtToken(name, ' ', ids, FirstDelims);
    ParseLineAfterFirstToken(line, name, ids);
  }

  /** Once the first strtok call on a NUL-free line returns a name, the line's ids are those of what follows. */
  lemma ParseLineAfterFirstToken(line: string, name: string, rest: string)
    requires CStr(line) == line && Strtok(line, FirstDelims) == Step(Some(name), rest)
    ensures ParseLine(line) == Entry(Some(name), AtoiAll(Tokens(rest, LaterDelims)))
  {
  }

  /** A line in the val.txt format parses back to its name and id. */
  lemma ParseFormattedLine(name: string, id: nat)
    requires IsImageName(name)
    ensures ParseLine(FormatLine(name, id)) == Entry(Some(name), [id])
  {
    var digits := NatToDecimal(id);
    NumeralChars(digits);
    ParseNameAndIds(name, digits);
    TokensOfJoin([digits], ' ', LaterDelims);
    assert JoinWith([digits], ' ') == digits;
    AtoiOfNat(id);
  }

  /** A formatted line holds no '\n', so it stays one line of the file. */
  lemma FormattedLineIsOneLine(name: string, id: nat)
    requires IsImageName(name)
    ensures NoNewline(FormatLine(name, id))
  {
    var digits := NatToDecimal(id);
    NumeralChars(digits);
    var line := FormatLine(name, id);
    assert forall j :: 0 <= j < |name| ==> line[j] == name[j];
    assert forall j :: |name| < j < |line| ==> line[j] == digits[j - |name| - 1];
  }

  /** When every line adds exactly one name and one id, the two lists stay in lockstep with the lines. */
  lemma {:induction false} GatherLockstep(es: seq<Entry>)
    requires forall k :: 0 <= k < |es| ==> es[k].image.Some? && |es[k].ids| == 1
    ensures |Gather(es).images| == |es| == |Gather(es).solutions|
    ensures forall k :: 0 <= k < |es| ==>
      Gather(es).images[k] == es[k].image.value && Gather(es).solutions[k] == es[k].ids[0]
  {
    if |es| > 0 {
      GatherLockstep(es[1..]);
      var v := Gather(es);
      var rest := Gather(es[1..]);
      assert v.images == [es[0].image.value] + rest.images && v.solutions == es[0].ids + rest.solutions by {
        GatherCons(es[0], es[1..]);
        assert [es[0]] + es[1..] == es;
      }
      forall k | 1 <= k < |es|
        ensures v.images[k] == es[k].image.value && v.solutions[k] == es[k].ids[0]
      {
        assert es[1..][k - 1] == es[k];
      }
    }
  }

  /** The val.txt text for names and ids, one formatted line each. */
  function FormatList(names: seq<string>, ids: seq<nat>): string
    requires |names| == |ids|
  {
    Unlines(seq(|names|, k requires 0 <= k < |names| => FormatLine(names[k], ids[k])))
  }

  /** Writing names and ids in the val.txt format and loading them back gives the same two lists. */
  lemma LoadFormattedList(names: seq<string>, ids: seq<nat>)
    requires |names| == |ids|
    requires forall k :: 0 <= k < |names| ==> IsImageName(names[k])
    ensures LoadImageNamesSolutions(FormatList(names, ids)) == Listing(names, ids)
  {
    var lines := seq(|names|, k requires 0 <= k < |names| => FormatLine(names[k], ids[k]));
    forall k | 0 <= k < |lines|
      ensures NoNewline(lines[k])
      ensures ParseLine(lines[k]) == Entry(Some(names[k]), [ids[k]])
    {
      ParseFormattedLine(names[k], ids[k]);
      FormattedLineIsOneLine(names[k], ids[k]);
    }
    GetLinesOfUnlines(lines);
    var es := ParseLines(lines);
    GatherLockstep(es);
    var v := Gather(es);
    assert v.images == names;
    assert v.solutions == ids;
  }

  /** A line that is a single image name adds the name and no id. */
  lemma ParseNameOnlyLine(name: string)
    requires IsImageName(name)
    ensures ParseLine(name) == Entry(Some(name), [])
  {
    CStrOfNulFree(name);
    StrtokAtLastToken(name, FirstDelims);
  }

  /** Three lines without '\n' written out are read back as those three lines. */
  lemma ThreeLines(a: string, b: string, c: string)
    requires NoNewline(a) && NoNewline(b) && NoNewline(c)
    ensures GetLines(a + "\n" + b + "\n" + c + "\n") == [a, b, c]
  {
    var lines := [a, b, c];
    assert lines[1..] == [b, c];
    assert lines[1..][1..] == [c];
    assert Unlines([c]) == c + "\n";
    assert Unlines([b, c]) == b + "\n" + (c + "\n");
    assert Unlines(lines) == a + "\n" + b + "\n" + c + "\n";
    GetLinesOfUnlines(lines);
  }

  /** Three entries contribute their names and their ids, each list in entry order. */
  lemma GatherThree(e1: Entry, e2: Entry, e3: Entry)
    ensures Gather([e1, e2, e3]) == Listing(Names(e1) + Names(e2) + Names(e3), e1.ids + e2.ids + e3.ids)
  {
    assert Gather([e3]) == Listing(Names(e3), e3.ids) by {
      GatherCons(e3, []);
      assert [e3] == [e3] + [];
      assert Names(e3) + [] == Names(e3) && e3.ids + [] == e3.ids;
    }
    assert Gather([e2, e3]) == Listing(Names(e2) + Names(e3), e2.ids + e3.ids) by {
      GatherCons(e2, [e3]);
      assert [e2, e3] == [e2] + [e3];
    }
    assert Gather([e1, e2, e3]) == Listing(Names(e1) + (Names(e2) + Names(e3)), e1.ids + (e2.ids + e3.ids)) by {
      GatherCons(e1, [e2, e3]);
      assert [e1, e2, e3] == [e1] + [e2, e3];
    }
  }

  /** One more entry in front adds its name and its ids in front of both lists. */
  lemma GatherCons(e: Entry, es: seq<Entry>)
    ensures Gather([e] + es) == Listing(Names(e) + Gather(es).images, e.ids + Gather(es).solutions)
  {
    assert ([e] + es)[1..] == es;
  }

  /**
   * A one-token line adds an image without an id, so every later image is
   * paired with the next line's id: "a x", "b", "c y" load as the names a, b,
   * c and the ids x, y, and b ends up scored against y.
   */
  lemma OneTokenLineDesynchronises(a: string, x: nat, b: string, c: string, y: nat)
    requires IsImageName(a) && IsImageName(b) && IsImageName(c)
    ensures LoadImageNamesSolutions(FormatLine(a, x) + "\n" + b + "\n" + FormatLine(c, y) + "\n") ==
      Listing([a, b, c], [x, y])
  {
    assert [a] + [b] + [c] == [a, b, c];
    assert [x] + [] + [y] == [x, y];
    var l1, l3 := FormatLine(a, x), FormatLine(c, y);
    FormattedLineIsOneLine(a, x);
    FormattedLineIsOneLine(c, y);
    assert NoNewline(b) by {
      assert '\n' in FirstDelims;
    }
    var e1, e2, e3 := Entry(Some(a), [x]), Entry(Some(b), []), Entry(Some(c), [y]);
    ParseFormattedLine(a, x);
    ParseNameOnlyLine(b);
    ParseFormattedLine(c, y);
    LoadThreeLines(l1, b, l3, e1, e2, e3);
    GatherThree(e1, e2, e3);
    assert Names(e1) == [a] && Names(e2) == [b] && Names(e3) == [c];
  }

  /** Three one-line texts written out load as the gathered entries of the three lines. */
  lemma LoadThreeLines(l1: string, l2: string, l3: string, e1: Entry, e2: Entry, e3: Entry)
    requires NoNewline(l1) && NoNewline(l2) && NoNewline(l3)
    requires ParseLine(l1) == e1 && ParseLine(l2) == e2 && ParseLine(l3) == e3
    ensures LoadImageNamesSolutions(l1 + "\n" + l2 + "\n" + l3 + "\n") == Gather([e1, e2, e3])
  {
    var text := l1 + "\n" + l2 + "\n" + l3 + "\n";
    ThreeLines(l1, l2, l3);
    LoadOfLines(text, [l1, l2, l3]);
    var es := ParseLines([l1, l2, l3]);
    assert es[0] == e1 && es[1] == e2 && es[2] == e3;
    assert es == [e1, e2, e3];
  }

  /** A text loads as the gathered entries of its lines. */
  lemma LoadOfLines(text: string, lines: seq<string>)
    requires GetLines(text) == lines
    ensures LoadImageNamesSolutions(text) == Gather(ParseLines(lines))
  {
  }

  /** Two numerals joined by any later delimiter are read as two ids. */
  lemma IdsOfJoinedNumerals(x: nat, y: nat, sep: char)
    requires sep in LaterDelims
    ensures AtoiAll(Tokens(NatToDecimal(x) + [sep] + NatToDecimal(y), LaterDelims)) == [x, y]
  {
    var dx := NatToDecimal(x);
    var dy := NatToDecimal(y);
    assert Tokens(dx + [sep] + dy, LaterDelims) == [dx, dy] by {
      NumeralChars(dx);
      NumeralChars(dy);
      TokensOfJoin([dx, dy], sep, LaterDelims);
      assert [dx, dy][1..] == [dy];
      assert JoinWith([dx, dy], sep) == dx + [sep] + dy;
    }
    AtoiAllOfTwo(x, y);
  }

  /**
   * After the image name, ',', '.' and '-' separate ids as a space does: a
   * line such as "x 12-3" adds the two ids 12 and 3.
   */
  lemma DashSplitsIds(name: string, x: nat, y: nat, sep: char)
    requires IsImageName(name) && sep in LaterDelims
    ensures ParseLine(name + " " + (NatToDecimal(x) + [sep] + NatToDecimal(y))) == Entry(Some(name), [x, y])
  {
    var dx, dy := NatToDecimal(x), NatToDecimal(y);
    NumeralChars(dx);
    NumeralChars(dy);
    var ids := dx + [sep] + dy;
    assert sep != '\0';
    assert '\0' !in ids;
    ParseNameAndIds(name, ids);
    IdsOfJoinedNumerals(x, y, sep);
  }

  /**
   * The general shape of a line: delimiters, the image name, one delimiter
   * of the first call, then ids laid out between runs of later delimiters.
   * Leading delimiters are skipped and a run of several later delimiters
   * separates two ids only once.
   */
  lemma ParseLineOfLayout(line: string, pre: string, name: string, sep: char,
                          lead: string, ds: seq<string>, gaps: seq<string>)
    requires AllDelims(pre, FirstDelims) && IsToken(name, FirstDelims) && sep in FirstDelims
    requires |gaps| == |ds| && Separates(lead, ds, gaps, LaterDelims)
    requires CStr(line) == pre + name + [sep] + Layout(lead, ds, gaps)
    ensures ParseLine(line) == Entry(Some(name), AtoiAll(ds))
  {
    var rest := Layout(lead, ds, gaps);
    StrtokAfterDelims(pre, name, sep, rest, FirstDelims);
    TokensOfLayout(lead, ds, gaps, LaterDelims);
  }

  /** A line whose only token is the image name, after any delimiters, adds the name and no id. */
  lemma ParseLineOfNameOnly(line: string, pre: string, name: string)
    requires AllDelims(pre, FirstDelims) && IsToken(name, FirstDelims)
    requires CStr(line) == pre + name
    ensures ParseLine(line) == Entry(Some(name), [])
  {
    StrtokAtLastToken(name, FirstDelims);
    StrtokSkipsDelims(pre, name, FirstDelims);
    assert Tokens([], LaterDelims) == [];
  }

  /** The parse of a line ends at its first NUL: what follows it is never read. */
  lemma ParseLineStopsAtNul(line: string, tail: string)
    requires '\0' !in line
    ensures ParseLine(line + ['\0'] + tail) == ParseLine(line)
  {
    CStrStopsAtNul(line, tail);
    CStrOfNulFree(line);
  }

  /**
   * Leading spaces, a run such as ", " between ids and a trailing space
   * change nothing: " name 12, 3 " adds the name and the two ids 12 and 3.
   */
  lemma SeparatorRunsSplitIds(name: string, x: nat, y: nat)
    requires IsImageName(name)
    ensures ParseLine(" " + name + " " + (NatToDecimal(x) + ", " + NatToDecimal(y) + " ")) ==
      Entry(Some(name), [x, y])
  {
    SeparatorRunsLine(name, x, y);
    AtoiAllOfTwo(x, y);
  }

  /** atoi reads the numerals of two ids back as the ids. */
  lemma AtoiAllOfTwo(x: nat, y: nat)
    ensures AtoiAll([NatToDecimal(x), NatToDecimal(y)]) == [x, y]
  {
    var vs := AtoiAll([NatToDecimal(x), NatToDecimal(y)]);
    assert vs[0] == x by {
      AtoiOfNat(x);
    }
    assert vs[1] == y by {
      AtoiOfNat(y);
    }
  }

  /** The shape of " name 12, 3 " as a layout: the ids are the two numerals. */
  lemma SeparatorRunsLine(name: string, x: nat, y: nat)
    requires IsImageName(name)
    ensures var dx, dy := NatToDecimal(x), NatToDecimal(y);
      ParseLine(" " + name + " " + (dx + ", " + dy + " ")) == Entry(Some(name), AtoiAll([dx, dy]))
  {
    var dx, dy := NatToDecimal(x), NatToDecimal(y);
    NumeralChars(dx);
    NumeralChars(dy);
    var ids := dx + ", " + dy + " ";
    TwoIdsLayout(dx, dy);
    var line := " " + name + " " + ids;
    assert '\0' !in line;
    CStrOfNulFree(line);
    ParseLineOfLayout(line, " ", name, ' ', [], [dx, dy], [", ", " "]);
  }

  /** Two ids with the run ", " between them and a space after the last are a layout of the later delimiters. */
  lemma TwoIdsLayout(dx: string, dy: string)
    requires IsToken(dx, LaterDelims) && IsToken(dy, LaterDelims)
    ensures Separates([], [dx, dy], [", ", " "], LaterDelims)
    ensures Layout([], [dx, dy], [", ", " "]) == dx + ", " + dy + " "
  {
    var ds, gaps := [dx, dy], [", ", " "];
    assert ds[1..] == [dy] && gaps[1..] == [" "];
    assert Layout(" ", [], []) == " ";
    assert Layout(", ", [dy], [" "]) == ", " + dy + " ";
    assert [] + dx + (", " + dy + " ") == dx + ", " + dy + " ";
  }
}
