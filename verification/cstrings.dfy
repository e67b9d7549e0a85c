/**
 * The C string primitives the validation-list parser is built on: the
 * NUL-terminated view of a `char` buffer, and `strtok` as section 7.24.5.8
 * of ISO C11 describes it. strtok keeps the position where the next search
 * starts in hidden static state; here that position is the explicit `rest`
 * of each step, so a later call `strtok(NULL, delims)` is a step on `rest`.
 */
module CStrings {
  import opened Wrappers

  /** The C string a buffer holds: the characters before its first NUL. */
  function CStr(s: string): (c: string)
    ensures c <= s
    ensures '\0' !in c
    ensures |c| < |s| ==> s[|c|] == '\0'
  {
    if |s| == 0 || s[0] == '\0' then []
    else [s[0]] + CStr(s[1..])
  }

  /** A buffer without NUL holds itself as a C string. */
  lemma CStrOfNulFree(s: string)
    requires '\0' !in s
    ensures CStr(s) == s
  {
  }

  /** Whatever follows the first NUL of a buffer is not part of its C string. */
  lemma {:induction false} CStrStopsAtNul(c: string, tail: string)
    requires '\0' !in c
    ensures CStr(c + ['\0'] + tail) == c
  {
    var s := c + ['\0'] + tail;
    if |c| > 0 {
      assert s[0] == c[0];
      assert s[1..] == c[1..] + ['\0'] + tail;
      CStrStopsAtNul(c[1..], tail);
      assert [c[0]] + c[1..] == c;
    } else {
      assert s[0] == '\0';
    }
  }

  /** Every character of `s` is one of `delims`. */
  predicate AllDelims(s: string, delims: string) {
    forall j :: 0 <= j < |s| ==> s[j] in delims
  }

  /** What strtok can return: a non-empty run of characters none of which is a delimiter. */
  predicate IsToken(t: string, delims: string) {
    |t| > 0 && forall j :: 0 <= j < |t| ==> t[j] !in delims
  }

  /** Length of the longest prefix of `s` made of delimiters (strspn). */
  function SpanDelims(s: string, delims: string): (n: nat)
    ensures n <= |s|
    ensures forall j :: 0 <= j < n ==> s[j] in delims
    ensures n < |s| ==> s[n] !in delims
  {
    if |s| == 0 || s[0] !in delims then 0
    else 1 + SpanDelims(s[1..], delims)
  }

  /** Length of the longest prefix of `s` free of delimiters (strcspn). */
  function SpanToken(s: string, delims: string): (n: nat)
    ensures n <= |s|
    ensures forall j :: 0 <= j < n ==> s[j] !in delims
    ensures n < |s| ==> s[n] in delims
  {
    if |s| == 0 || s[0] in delims then 0
    else 1 + SpanToken(s[1..], delims)
  }

  /** One strtok call: the token found (None for a null pointer) and where the next call resumes. */
  datatype Step = Step(token: Option<string>, rest: string)

  /**
   * strtok on `s`: skip leading delimiters; if nothing is left there is no
   * token and every later call finds none either; otherwise the token runs
   * to the next delimiter, which is overwritten by NUL, and the next search
   * starts just after it (or at the end when the token reaches the end).
   */
  function Strtok(s: string, delims: string): (r: Step)
    ensures r.token.None? <==> AllDelims(s, delims)
    ensures r.token.None? ==> r.rest == []
    ensures r.token.Some? ==> IsToken(r.token.value, delims) && |r.rest| < |s|
  {
    var start := SpanDelims(s, delims);
    var t := s[start..];
    if |t| == 0 then Step(None, [])
    else
      var n := SpanToken(t, delims);
      if n == |t| then Step(Some(t), [])
      else Step(Some(t[..n]), t[n + 1..])
  }

  /**
   * Where strtok's token lies: right after the leading run of delimiters,
   * and either reaching the end of the text or ended by a delimiter after
   * which the next search resumes.
   */
  lemma {:induction false} StrtokFindsFirstToken(s: string, delims: string)
    ensures var r := Strtok(s, delims);
      r.token.Some? ==>
        var lead := SpanDelims(s, delims);
        var end := lead + |r.token.value|;
        && AllDelims(s[..lead], delims)
        && end <= |s| && s[lead..end] == r.token.value
        && (end == |s| ==> r.rest == [])
        && (end < |s| ==> s[end] in delims && r.rest == s[end + 1..])
  {
    var start := SpanDelims(s, delims);
    var t := s[start..];
    if |t| > 0 {
      var n := SpanToken(t, delims);
      assert s[start..start + n] == t[..n];
      if n < |t| {
        assert s[start + n] == t[n];
        assert s[start + n + 1..] == t[n + 1..];
      }
    }
  }

  /** A run of delimiters in front of the text does not change what strtok finds there. */
  lemma {:induction false} SpanDelimsAfter(pre: string, s: string, delims: string)
    requires AllDelims(pre, delims)
    ensures SpanDelims(pre + s, delims) == |pre| + SpanDelims(s, delims)
  {
    if |pre| > 0 {
      assert (pre + s)[0] == pre[0];
      assert (pre + s)[1..] == pre[1..] + s;
      SpanDelimsAfter(pre[1..], s, delims);
    } else {
      assert pre + s == s;
    }
  }

  /** strtok skips leading delimiters: a run of them in front changes neither the token nor the rest. */
  lemma {:induction false} StrtokSkipsDelims(pre: string, s: string, delims: string)
    requires AllDelims(pre, delims)
    ensures Strtok(pre + s, delims) == Strtok(s, delims)
  {
    var u := pre + s;
    SpanDelimsAfter(pre, s, delims);
    var lead := SpanDelims(s, delims);
    assert u[|pre|..] == s;
    assert u[|pre| + lead..] == u[|pre|..][lead..];
    var t := s[lead..];
    assert u[SpanDelims(u, delims)..] == t;
  }

  /** The tokens that successive strtok calls with the same delimiters return, in order. */
  function Tokens(s: string, delims: string): (ts: seq<string>)
    ensures forall k :: 0 <= k < |ts| ==> IsToken(ts[k], delims)
    ensures |ts| == 0 <==> AllDelims(s, delims)
    decreases |s|
  {
    var r := Strtok(s, delims);
    if r.token.None? then []
    else [r.token.value] + Tokens(r.rest, delims)
  }

  /** Tokens written one after another with a single separator between neighbours. */
  function JoinWith(ts: seq<string>, sep: char): string
  {
    if |ts| == 0 then []
    else if |ts| == 1 then ts[0]
    else ts[0] + [sep] + JoinWith(ts[1..], sep)
  }

  /**
   * strtok on a token and a delimiter returns that token and resumes right
   * after the delimiter that ended it.
   */
  lemma StrtokAtToken(t: string, sep: char, rest: string, delims: string)
    requires IsToken(t, delims) && sep in delims
    ensures Strtok(t + [sep] + rest, delims) == Step(Some(t), rest)
  {
    var s := t + [sep] + rest;
    assert s[0] == t[0];
    assert SpanDelims(s, delims) == 0;
    assert s[0..] == s;
    var n := SpanToken(s, delims);
    assert s[|t|] == sep;
    assert forall j :: 0 <= j < |t| ==> s[j] == t[j];
    assert n == |t|;
    assert s[..n] == t;
    assert s[n + 1..] == rest;
  }

  /**
   * strtok after leading delimiters returns the token that follows them and
   * resumes right after the delimiter that ended it.
   */
  lemma StrtokAfterDelims(pre: string, t: string, sep: char, rest: string, delims: string)
    requires AllDelims(pre, delims) && IsToken(t, delims) && sep in delims
    ensures Strtok(pre + t + [sep] + rest, delims) == Step(Some(t), rest)
  {
    StrtokAtToken(t, sep, rest, delims);
    assert pre + t + [sep] + rest == pre + (t + [sep] + rest);
    StrtokSkipsDelims(pre, t + [sep] + rest, delims);
  }

  /** strtok on a token that reaches the end returns the token and leaves nothing. */
  lemma StrtokAtLastToken(t: string, delims: string)
    requires IsToken(t, delims)
    ensures Strtok(t, delims) == Step(Some(t), [])
  {
    assert t[0..] == t;
    assert SpanDelims(t, delims) == 0;
  }

  /** Splitting a join of tokens on a delimiter gives the tokens back. */
  lemma {:induction false} TokensOfJoin(ts: seq<string>, sep: char, delims: string)
    requires forall k :: 0 <= k < |ts| ==> IsToken(ts[k], delims)
    requires sep in delims
    ensures Tokens(JoinWith(ts, sep), delims) == ts
  {
    if |ts| == 1 {
      StrtokAtLastToken(ts[0], delims);
    } else if |ts| > 1 {
      var rest := JoinWith(ts[1..], sep);
      StrtokAtToken(ts[0], sep, rest, delims);
      TokensOfJoin(ts[1..], sep, delims);
    }
  }

  /**
   * Tokens laid out between runs of delimiters: the run `lead` first, then
   * each token followed by its run gaps[k]. Runs may be longer than one
   * character; only the run after the last token may be empty.
   */
  function Layout(lead: string, ts: seq<string>, gaps: seq<string>): string
    requires |gaps| == |ts|
    decreases |ts|
  {
    if |ts| == 0 then lead
    else lead + ts[0] + Layout(gaps[0], ts[1..], gaps[1..])
  }

  /** The runs of a layout are delimiters, and every run between two tokens is non-empty. */
  predicate Separates(lead: string, ts: seq<string>, gaps: seq<string>, delims: string)
    requires |gaps| == |ts|
  {
    && AllDelims(lead, delims)
    && (forall k :: 0 <= k < |ts| ==> IsToken(ts[k], delims) && AllDelims(gaps[k], delims))
    && (forall k :: 0 <= k < |ts| - 1 ==> |gaps[k]| > 0)
  }

  /**
   * strtok over a layout returns its tokens in order: leading delimiters are
   * skipped and a run of several delimiters breaks the text only once.
   */
  lemma {:induction false} TokensOfLayout(lead: string, ts: seq<string>, gaps: seq<string>, delims: string)
    requires |gaps| == |ts|
    requires Separates(lead, ts, gaps, delims)
    ensures Tokens(Layout(lead, ts, gaps), delims) == ts
    decreases |ts|
  {
    var s := Layout(lead, ts, gaps);
    if |ts| == 0 {
      assert Strtok(s, delims).token.None?;
    } else if |Layout(gaps[0], ts[1..], gaps[1..])| == 0 {
      StrtokAtLayoutEnd(lead, ts, gaps, delims);
      TokensStep(s, ts[0], [], delims);
      assert Tokens([], delims) == [];
    } else {
      var rest := Layout(gaps[0][1..], ts[1..], gaps[1..]);
      assert Tokens(s, delims) == [ts[0]] + Tokens(rest, delims) by {
        StrtokAtLayout(lead, ts, gaps, delims);
        TokensStep(s, ts[0], rest, delims);
      }
      TokensOfLayout(gaps[0][1..], ts[1..], gaps[1..], delims);
      assert [ts[0]] + ts[1..] == ts;
    }
  }

  /** The tokens of a text are strtok's first token, then the tokens of what it leaves. */
  lemma TokensStep(s: string, t: string, rest: string, delims: string)
    requires Strtok(s, delims) == Step(Some(t), rest)
    ensures Tokens(s, delims) == [t] + Tokens(rest, delims)
  {
  }

  /** strtok on a layout whose first token is followed only by an empty run finds that token and nothing after. */
  lemma StrtokAtLayoutEnd(lead: string, ts: seq<string>, gaps: seq<string>, delims: string)
    requires |gaps| == |ts| && |ts| > 0
    requires Separates(lead, ts, gaps, delims)
    requires |Layout(gaps[0], ts[1..], gaps[1..])| == 0
    ensures Strtok(Layout(lead, ts, gaps), delims) == Step(Some(ts[0]), [])
  {
    StrtokAtLastToken(ts[0], delims);
    StrtokSkipsDelims(lead, ts[0], delims);
    assert Layout(lead, ts, gaps) == lead + ts[0] + [];
    assert lead + ts[0] + [] == lead + ts[0];
  }

  /**
   * strtok on a layout with more after its first token finds that token and
   * resumes after the first delimiter of the run that follows it.
   */
  lemma StrtokAtLayout(lead: string, ts: seq<string>, gaps: seq<string>, delims: string)
    requires |gaps| == |ts| && |ts| > 0
    requires Separates(lead, ts, gaps, delims)
    requires |Layout(gaps[0], ts[1..], gaps[1..])| > 0
    ensures |gaps[0]| > 0
    ensures Separates(gaps[0][1..], ts[1..], gaps[1..], delims)
    ensures Strtok(Layout(lead, ts, gaps), delims) == Step(Some(ts[0]), Layout(gaps[0][1..], ts[1..], gaps[1..]))
  {
    var g := gaps[0];
    var tail := Layout(g, ts[1..], gaps[1..]);
    assert |g| > 0 by {
      if |ts| == 1 {
        assert tail == g;
      }
    }
    SeparatesRest(lead, ts, gaps, delims);
    var rest := Layout(g[1..], ts[1..], gaps[1..]);
    assert Layout(lead, ts, gaps) == lead + ts[0] + [g[0]] + rest by {
      LayoutHead(g, ts[1..], gaps[1..]);
      assert Layout(lead, ts, gaps) == lead + ts[0] + tail;
      assert lead + ts[0] + ([g[0]] + rest) == lead + ts[0] + [g[0]] + rest;
    }
    StrtokAfterDelims(lead, ts[0], g[0], rest, delims);
  }

  /** What follows the first token of a layout and the first delimiter after it is a layout again. */
  lemma SeparatesRest(lead: string, ts: seq<string>, gaps: seq<string>, delims: string)
    requires |gaps| == |ts| && |ts| > 0 && |gaps[0]| > 0
    requires Separates(lead, ts, gaps, delims)
    ensures Separates(gaps[0][1..], ts[1..], gaps[1..], delims)
  {
    assert forall k :: 0 <= k < |ts| - 1 ==> ts[1..][k] == ts[k + 1] && gaps[1..][k] == gaps[k + 1];
  }

  /** Moving the first character of a layout's leading run out in front of it. */
  lemma {:induction false} LayoutHead(g: string, ts: seq<string>, gaps: seq<string>)
    requires |gaps| == |ts| && |g| > 0
    ensures Layout(g, ts, gaps) == [g[0]] + Layout(g[1..], ts, gaps)
  {
    assert g == [g[0]] + g[1..];
    if |ts| > 0 {
      var r := Layout(gaps[0], ts[1..], gaps[1..]);
      assert Layout(g, ts, gaps) == g + ts[0] + r;
      assert Layout(g[1..], ts, gaps) == g[1..] + ts[0] + r;
      assert g + ts[0] + r == [g[0]] + (g[1..] + ts[0] + r);
    }
  }
}
