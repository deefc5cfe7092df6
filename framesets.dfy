/**
 * The frameset parser of layer_settings_util.cpp: `ToFrameSet` reads one
 * `first[-count[-step]]` token, `ToFrameSets` a list of them separated by
 * ',' or by the platform's environment delimiter.
 */
module Framesets {
  import opened Types
  import opened Tokenizer
  import opened Grammar
  import Text

  /** `GetEnvDelimiter`: ';' on Windows, where ':' appears in drive paths, and ':' elsewhere. */
  function GetEnvDelimiter(os: Os): (d: char)
    ensures d == ';' || d == ':'
    ensures d == ';' <==> os == Windows
  {
    if os == Windows then ';' else ':'
  }

  /** `FindDelimiter`: ',' when the string holds one, else the environment delimiter when it holds that, else ','. */
  function FindDelimiter(os: Os, s: string): (d: char)
    ensures d == ',' || d == GetEnvDelimiter(os)
    ensures ',' in s ==> d == ','
    ensures d != ',' ==> d in s
    ensures ',' !in s && GetEnvDelimiter(os) in s ==> d == GetEnvDelimiter(os)
  {
    if Find(s, ',', 0) < |s| then ','
    else if Find(s, GetEnvDelimiter(os), 0) < |s| then GetEnvDelimiter(os)
    else ','
  }

  function DigitValue(c: char): (v: nat)
    requires IsDigit(c)
    ensures v < 10
  {
    c as int - '0' as int
  }

  function DigitChar(v: nat): (c: char)
    requires v < 10
    ensures IsDigit(c) && DigitValue(c) == v
  {
    ('0' as int + v) as char
  }

  /** The number a run of decimal digits denotes, most significant digit first. */
  function DecimalValue(s: string): nat
    requires AllDigits(s)
  {
    if s == [] then 0 else DecimalValue(s[..|s| - 1]) * 10 + DigitValue(s[|s| - 1])
  }

  /** The shortest decimal numeral of `n`. */
  function DecimalString(n: nat): (s: string)
    ensures |s| >= 1 && AllDigits(s)
    ensures DecimalValue(s) == n
    decreases n
  {
    if n < 10 then [DigitChar(n)]
    else
      var p := DecimalString(n / 10);
      var s := p + [DigitChar(n % 10)];
      assert s[..|s| - 1] == p;
      s
  }

  /**
   * `std::atoll`: after leading whitespace, an optional '+' or '-' and the
   * longest run of digits that follows; 0 when there is none.
   */
  function Atoll(s: string): (r: int)
    ensures var t := s[Text.FirstNotWhitespace(s, 0)..]; r < 0 ==> |t| > 0 && t[0] == '-'
  {
    SignedValue(s[Text.FirstNotWhitespace(s, 0)..])
  }

  /** The value of an optional sign and the digits that follow it. */
  function SignedValue(t: string): int
  {
    if |t| > 0 && t[0] == '-' then -(LeadingValue(t[1..]) as int)
    else if |t| > 0 && t[0] == '+' then LeadingValue(t[1..])
    else LeadingValue(t)
  }

  /** The value of the longest run of digits at the start. */
  function LeadingValue(u: string): nat
  {
    DecimalValue(u[..FirstNonDigit(u, 0)])
  }

  lemma {:induction false} LeadingValueReads(digits: string, rest: string)
    requires AllDigits(digits)
    requires rest == [] || !IsDigit(rest[0])
    ensures LeadingValue(digits + rest) == DecimalValue(digits)
  {
    var u := digits + rest;
    assert forall k :: 0 <= k < |digits| ==> u[k] == digits[k];
    if |u| > |digits| { assert u[|digits|] == rest[0]; }
    FirstNonDigitAt(u, 0, |digits|);
    assert u[..|digits|] == digits;
  }

  lemma {:induction false} SkipWhitespace(ws: string, t: string)
    requires Text.AllWhitespace(ws)
    requires t == [] || !Text.IsWhitespace(t[0])
    ensures Atoll(ws + t) == SignedValue(t)
  {
    var s := ws + t;
    assert forall k :: 0 <= k < |ws| ==> s[k] == ws[k];
    if |t| > 0 { assert s[|ws|] == t[0]; }
    assert Text.FirstNotWhitespace(s, 0) == |ws|;
    assert s[|ws|..] == t;
  }

  /**
   * `std::atoll` on whitespace, a sign, digits and a rest that does not start
   * with a digit reads exactly those digits, negated after a '-'.
   */
  lemma {:induction false} AtollReads(ws: string, sign: string, digits: string, rest: string)
    requires Text.AllWhitespace(ws)
    requires sign == "" || sign == "+" || sign == "-"
    requires AllDigits(digits)
    requires rest == [] || !IsDigit(rest[0])
    requires sign == "" && digits == [] ==> rest == [] || (!Text.IsWhitespace(rest[0]) && rest[0] != '+' && rest[0] != '-')
    ensures Atoll(ws + sign + digits + rest) == if sign == "-" then -(DecimalValue(digits) as int) else DecimalValue(digits)
  {
    var u := digits + rest;
    var t := sign + u;
    assert ws + sign + digits + rest == ws + t;
    assert u != [] ==> u[0] == if digits != [] then digits[0] else rest[0];
    assert t != [] ==> t[0] == if sign != "" then sign[0] else u[0];
    SkipWhitespace(ws, t);
    SignedValueReads(sign, u);
    LeadingValueReads(digits, rest);
  }

  lemma {:induction false} SignedValueReads(sign: string, u: string)
    requires sign == "" || sign == "+" || sign == "-"
    requires sign == "" && u != [] ==> u[0] != '+' && u[0] != '-'
    ensures SignedValue(sign + u) == if sign == "-" then -(LeadingValue(u) as int) else LeadingValue(u)
  {
    if sign != "" {
      assert (sign + u)[1..] == u;
    } else {
      assert sign + u == u;
    }
  }

  /** `std::atoll` of a plain run of digits is its decimal value; of the empty string, 0. */
  lemma {:induction false} AtollDigits(digits: string)
    requires AllDigits(digits)
    ensures Atoll(digits) == DecimalValue(digits)
  {
    assert digits == [] + "" + digits + [];
    AtollReads([], "", digits, []);
  }

  /**
   * `ToFrameSet`: the '-'-separated parts of the token become `first`,
   * `count` and `step`, each through `std::atoll` and a cast to 32 bits;
   * a missing part keeps its default {0, 1, 1}.
   */
  function ToFrameSet(s: string): (f: Frameset)
    ensures Tokens(s, '-') == [] ==> f.first == 0
    ensures |Tokens(s, '-')| < 2 ==> f.count == 1
    ensures |Tokens(s, '-')| < 3 ==> f.step == 1
  {
    var parts := Tokens(s, '-');
    Frameset(
      if |parts| >= 1 then Truncate32(Atoll(parts[0])) else 0,
      if |parts| >= 2 then Truncate32(Atoll(parts[1])) else 1,
      if |parts| >= 3 then Truncate32(Atoll(parts[2])) else 1)
  }

  /** The frameset a frame group denotes: its digit runs in order, missing ones at their defaults. */
  function GroupValue(runs: seq<string>): Frameset
    requires 1 <= |runs| <= 3
    requires forall j :: 0 <= j < |runs| ==> IsDigitRun(runs[j])
  {
    assert IsDigitRun(runs[0]);
    assert |runs| >= 2 ==> IsDigitRun(runs[1]);
    assert |runs| >= 3 ==> IsDigitRun(runs[2]);
    Frameset(
      Truncate32(DecimalValue(runs[0])),
      if |runs| >= 2 then Truncate32(DecimalValue(runs[1])) else 1,
      if |runs| >= 3 then Truncate32(DecimalValue(runs[2])) else 1)
  }

  /** `ToFrameSet` reads every frame group the grammar generates as the frameset it denotes. */
  lemma {:induction false} ToFrameSetOfGroup(runs: seq<string>)
    requires 1 <= |runs| <= 3
    requires forall j :: 0 <= j < |runs| ==> IsDigitRun(runs[j])
    ensures ToFrameSet(GroupText(runs)) == GroupValue(runs)
  {
    DigitRunsHaveNoSeparator(runs, '-');
    TokensOfJoin(runs, '-');
    forall j | 0 <= j < |runs| ensures Atoll(runs[j]) == DecimalValue(runs[j]) {
      AtollDigits(runs[j]);
    }
  }

  /** The three numerals of a frameset. */
  function FramesetRuns(f: Frameset): (runs: seq<string>)
    ensures |runs| == 3 && forall j :: 0 <= j < 3 ==> IsDigitRun(runs[j])
  {
    [DecimalString(f.first as nat), DecimalString(f.count as nat), DecimalString(f.step as nat)]
  }

  /** A frameset written as "first-count-step". */
  function FramesetString(f: Frameset): string
  {
    GroupText(FramesetRuns(f))
  }

  /** Every frameset is written as an accepted frame group that reads back as itself. */
  lemma {:induction false} FramesetStringRoundTrip(f: Frameset)
    ensures IsFrameGroup(FramesetString(f))
    ensures ToFrameSet(FramesetString(f)) == f
  {
    var runs := FramesetRuns(f);
    DigitRunsHaveNoSeparator(runs, '-');
    FieldsOfJoin(runs, '-');
    ToFrameSetOfGroup(runs);
  }

  /** The example "76-100-10": all three fields given. */
  lemma ToFrameSetFull()
    ensures ToFrameSet("76-100-10") == Frameset(76, 100, 10)
  {
    assert DecimalValue("76") == 76 by { assert "76"[..1] == "7"; assert "7"[..0] == ""; }
    assert DecimalValue("100") == 100 by { assert "100"[..2] == "10"; assert "10"[..1] == "1"; assert "1"[..0] == ""; }
    assert DecimalValue("10") == 10 by { assert "10"[..1] == "1"; assert "1"[..0] == ""; }
    var runs := ["76", "100", "10"];
    assert GroupText(runs) == "76-100-10";
    ToFrameSetOfGroup(runs);
  }

  /** The example "5": count and step take their default 1. */
  lemma ToFrameSetFirstOnly()
    ensures ToFrameSet("5") == Frameset(5, 1, 1)
  {
    assert DecimalValue("5") == 5 by { assert "5"[..0] == ""; }
    assert GroupText(["5"]) == "5";
    ToFrameSetOfGroup(["5"]);
  }

  /** A count written as 0 is kept as 0: parsing does not raise it to the default 1. */
  lemma ToFrameSetZeroCount()
    ensures ToFrameSet("5-0") == Frameset(5, 0, 1)
  {
    assert DecimalValue("5") == 5 by { assert "5"[..0] == ""; }
    assert DecimalValue("0") == 0 by { assert "0"[..0] == ""; }
    assert GroupText(["5", "0"]) == "5-0";
    ToFrameSetOfGroup(["5", "0"]);
  }

  /** A step written as 0 is kept as 0 as well. */
  lemma ToFrameSetZeroStep()
    ensures ToFrameSet("5-1-0") == Frameset(5, 1, 0)
  {
    assert DecimalValue("5") == 5 by { assert "5"[..0] == ""; }
    assert DecimalValue("1") == 1 by { assert "1"[..0] == ""; }
    assert DecimalValue("0") == 0 by { assert "0"[..0] == ""; }
    assert GroupText(["5", "1", "0"]) == "5-1-0";
    ToFrameSetOfGroup(["5", "1", "0"]);
  }

  /** The parts of a token are read as `std::atoll` reads them: a '-'-free prefix is not enough to fail. */
  lemma ToFrameSetPermissive()
    ensures ToFrameSet("") == Frameset(0, 1, 1)
    ensures ToFrameSet("x") == Frameset(0, 1, 1)
  {
    SplitEmpty('-');
    assert Join(["x"], '-') == "x";
    TokensOfJoin(["x"], '-');
    assert !IsDigit("x"[0]);
    assert "x" == [] + "" + [] + "x";
    AtollReads([], "", [], "x");
  }

  /** What `ToFrameSets` computes: one frameset per token of the delimiter-split string. */
  function FrameSetsValue(os: Os, s: string): seq<Frameset>
  {
    var tokens := Tokens(s, FindDelimiter(os, s));
    seq(|tokens|, i requires 0 <= i < |tokens| => ToFrameSet(tokens[i]))
  }

  /** `ToFrameSets`: splits the string and fills a vector of the token count by an indexed loop. */
  method ToFrameSets(os: Os, s: string) returns (results: seq<Frameset>)
    ensures results == FrameSetsValue(os, s)
  {
    var tokens := Split(s, FindDelimiter(os, s));
    ghost var value := FrameSetsValue(os, s);
    var buffer := new Frameset[|tokens|](_ => Frameset(0, 0, 0));
    for i := 0 to |tokens|
      invariant buffer[..i] == value[..i]
    {
      var f := ToFrameSet(tokens[i]);
      buffer[i] := f;
      assert buffer[..i + 1] == buffer[..i] + [f];
    }
    assert buffer[..] == buffer[..|tokens|];
    results := buffer[..];
  }

  /** The groups of numerals of a list of framesets. */
  function FramesetGroups(fs: seq<Frameset>): (groups: seq<seq<string>>)
    ensures |groups| == |fs| && forall i :: 0 <= i < |fs| ==> groups[i] == FramesetRuns(fs[i])
  {
    seq(|fs|, i requires 0 <= i < |fs| => FramesetRuns(fs[i]))
  }

  /** A list of framesets written out with ',' between them. */
  function FramesetsString(fs: seq<Frameset>): string
  {
    FrameSetsText(FramesetGroups(fs))
  }

  /** Every non-empty list of framesets is written as an accepted string that reads back as the list. */
  lemma {:induction false} FramesetsStringRoundTrip(os: Os, fs: seq<Frameset>)
    requires |fs| >= 1
    ensures IsFrameSets(FramesetsString(fs))
    ensures FrameSetsValue(os, FramesetsString(fs)) == fs
  {
    var groups := FramesetGroups(fs);
    var s := FramesetsString(fs);
    assert WellFormedGroups(groups);
    FrameSetsTextAccepted(groups);
    DelimiterOfFrameSets(os, s);
    FrameSetsTextTokens(groups);
    var texts := GroupTexts(groups);
    forall i | 0 <= i < |fs| ensures ToFrameSet(texts[i]) == fs[i] {
      FramesetStringRoundTrip(fs[i]);
    }
  }

  /** The empty string holds no frameset. */
  lemma FrameSetsValueEmpty(os: Os)
    ensures FrameSetsValue(os, "") == []
  {
    SplitEmpty(FindDelimiter(os, ""));
  }

  /**
   * On a string `IsFrameSets` accepts, `ToFrameSets` gives one frameset per
   * group, in order, each the value of that group's digit runs.
   */
  lemma {:induction false} FrameSetsValueOfAccepted(os: Os, s: string)
    requires IsFrameSets(s)
    ensures WellFormedGroups(GroupsOf(s))
    ensures |FrameSetsValue(os, s)| == |GroupsOf(s)|
    ensures forall i :: 0 <= i < |GroupsOf(s)| ==> FrameSetsValue(os, s)[i] == GroupValue(GroupsOf(s)[i])
  {
    var groups := GroupsOf(s);
    FrameSetsAcceptedIsText(s);
    DelimiterOfFrameSets(os, s);
    FrameSetsTextTokens(groups);
    forall i | 0 <= i < |groups| ensures FrameSetsValue(os, s)[i] == GroupValue(groups[i]) {
      ToFrameSetOfGroup(groups[i]);
    }
  }

  /** An accepted frameset list holds no environment delimiter, so it is always split at ','. */
  lemma {:induction false} DelimiterOfFrameSets(os: Os, s: string)
    requires IsFrameSets(s)
    ensures FindDelimiter(os, s) == ','
  {
    var d := GetEnvDelimiter(os);
    if d in s {
      var k :| 0 <= k < |s| && s[k] == d;
      FrameSetsChars(s, k);
    }
  }

  /** Every character of an accepted frameset list is a digit, '-' or ','. */
  lemma {:induction false} FrameSetsChars(s: string, k: nat)
    requires IsFrameSets(s) && k < |s|
    ensures IsDigit(s[k]) || s[k] == '-' || s[k] == ','
  {
    var f := Fields(s, ',');
    if s[k] != ',' {
      var i, m := FieldsCharAt(s, ',', k);
      assert IsFrameGroup(f[i]);
      if f[i][m] != '-' {
        var runs := Fields(f[i], '-');
        var j, n := FieldsCharAt(f[i], '-', m);
        assert IsDigitRun(runs[j]);
      }
    }
  }
}
