/**
 * The three whole-string grammar checks of layer_settings_util.cpp,
 * `IsFrameSets`, `IsInteger` and `IsFloat`, written as recognisers of the
 * grammars their regular expressions denote.
 */
module Grammar {
  import opened Tokenizer

  predicate IsDigit(c: char)
  {
    '0' <= c <= '9'
  }

  predicate AllDigits(s: string)
  {
    forall i :: 0 <= i < |s| ==> IsDigit(s[i])
  }

  /** `[0-9]+` */
  predicate IsDigitRun(s: string)
  {
    |s| >= 1 && AllDigits(s)
  }

  /** Index of the first non-digit at or after `from`, or |s|. */
  function FirstNonDigit(s: string, from: nat): (i: nat)
    requires from <= |s|
    ensures from <= i <= |s|
    ensures i < |s| ==> !IsDigit(s[i])
    ensures forall k :: from <= k < i ==> IsDigit(s[k])
    decreases |s| - from
  {
    if from == |s| then |s|
    else if !IsDigit(s[from]) then from
    else FirstNonDigit(s, from + 1)
  }

  /** A frame group `[0-9]+([-][0-9]+){0,2}`: one to three digit runs separated by '-'. */
  predicate IsFrameGroup(g: string)
  {
    var f := Fields(g, '-');
    |f| <= 3 && forall i :: 0 <= i < |f| ==> IsDigitRun(f[i])
  }

  /** `IsFrameSets`: `^(group)(,(group))*$`, one or more frame groups separated by ','. */
  predicate IsFrameSets(s: string): (b: bool)
    ensures b <==> WellFormedGroups(GroupsOf(s))
  {
    var groups := Fields(s, ',');
    assert forall i :: 0 <= i < |groups| ==> GroupsOf(s)[i] == Fields(groups[i], '-') && |Fields(groups[i], '-')| >= 1;
    forall i :: 0 <= i < |groups| ==> IsFrameGroup(groups[i])
  }

  /** A frame group written out from its one to three digit runs. */
  function GroupText(runs: seq<string>): string
  {
    Join(runs, '-')
  }

  /** A frame-set list written out from its groups. */
  function FrameSetsText(groups: seq<seq<string>>): string
  {
    Join(GroupTexts(groups), ',')
  }

  /** Each group written out on its own. */
  function GroupTexts(groups: seq<seq<string>>): (texts: seq<string>)
    ensures |texts| == |groups|
    ensures forall i :: 0 <= i < |groups| ==> texts[i] == GroupText(groups[i])
  {
    seq(|groups|, i requires 0 <= i < |groups| => GroupText(groups[i]))
  }

  /** The shape the frameset grammar generates: one or more groups of one to three digit runs. */
  ghost predicate WellFormedGroups(groups: seq<seq<string>>)
  {
    |groups| >= 1 &&
    forall i :: 0 <= i < |groups| ==>
      1 <= |groups[i]| <= 3 && forall j :: 0 <= j < |groups[i]| ==> IsDigitRun(groups[i][j])
  }

  /** The groups and digit runs a string is made of, read at every ',' and then every '-'. */
  function GroupsOf(s: string): seq<seq<string>>
  {
    var f := Fields(s, ',');
    seq(|f|, i requires 0 <= i < |f| => Fields(f[i], '-'))
  }

  lemma {:induction false} DigitRunsHaveNoSeparator(runs: seq<string>, d: char)
    requires forall j :: 0 <= j < |runs| ==> IsDigitRun(runs[j])
    requires !IsDigit(d)
    ensures NoneContains(runs, d)
  {
    forall j | 0 <= j < |runs| ensures d !in runs[j] {
      assert forall k :: 0 <= k < |runs[j]| ==> runs[j][k] != d;
    }
  }

  lemma {:induction false} GroupTextHasNoComma(runs: seq<string>)
    requires forall j :: 0 <= j < |runs| ==> IsDigitRun(runs[j])
    ensures ',' !in GroupText(runs)
    decreases |runs|
  {
    if |runs| > 1 {
      GroupTextHasNoComma(runs[1..]);
      assert GroupText(runs) == runs[0] + "-" + GroupText(runs[1..]);
      assert ',' !in runs[0] by { DigitRunsHaveNoSeparator(runs, ','); }
    } else if |runs| == 1 {
      DigitRunsHaveNoSeparator(runs, ',');
    }
  }

  /** Every string the grammar generates is accepted by `IsFrameSets`. */
  lemma {:induction false} FrameSetsTextAccepted(groups: seq<seq<string>>)
    requires WellFormedGroups(groups)
    ensures IsFrameSets(FrameSetsText(groups))
    ensures GroupsOf(FrameSetsText(groups)) == groups
  {
    var texts := GroupTexts(groups);
    assert NoneContains(texts, ',') by {
      forall i | 0 <= i < |texts| ensures ',' !in texts[i] { GroupTextHasNoComma(groups[i]); }
    }
    FieldsOfJoin(texts, ',');
    var f := Fields(FrameSetsText(groups), ',');
    assert f == texts;
    forall i | 0 <= i < |f| ensures Fields(f[i], '-') == groups[i] {
      DigitRunsHaveNoSeparator(groups[i], '-');
      FieldsOfJoin(groups[i], '-');
    }
  }

  /** `Split` at ',' of a generated string gives back its groups written out. */
  lemma {:induction false} FrameSetsTextTokens(groups: seq<seq<string>>)
    requires WellFormedGroups(groups)
    ensures Tokens(FrameSetsText(groups), ',') == GroupTexts(groups)
  {
    var texts := GroupTexts(groups);
    assert NoneContains(texts, ',') by {
      forall i | 0 <= i < |texts| ensures ',' !in texts[i] { GroupTextHasNoComma(groups[i]); }
    }
    var last := groups[|groups| - 1];
    assert texts[|texts| - 1] != [] by {
      if |last| == 1 {
        assert GroupText(last) == last[0];
      } else {
        assert GroupText(last) == last[0] + "-" + GroupText(last[1..]);
      }
    }
    TokensOfJoin(texts, ',');
  }

  /** Every string `IsFrameSets` accepts is generated by the grammar, from the groups it is made of. */
  lemma {:induction false} FrameSetsAcceptedIsText(s: string)
    requires IsFrameSets(s)
    ensures WellFormedGroups(GroupsOf(s))
    ensures FrameSetsText(GroupsOf(s)) == s
  {
    var f := Fields(s, ',');
    var groups := GroupsOf(s);
    var texts := GroupTexts(groups);
    forall i | 0 <= i < |f| ensures texts[i] == f[i] {
      JoinFields(f[i], '-');
    }
    assert texts == f;
    JoinFields(s, ',');
  }

  /** The empty string is rejected: its one group has an empty digit run. */
  lemma {:induction false} FrameSetsRejectsEmpty()
    ensures !IsFrameSets("")
  {
    assert Fields("", ',') == [""] by { assert Find("", ',', 0) == 0; }
    assert Fields("", '-') == [""] by { assert Find("", '-', 0) == 0; }
    assert !IsDigitRun(Fields("", '-')[0]);
  }

  /** A list ending in ',' is rejected: its last group is empty. */
  lemma {:induction false} FrameSetsRejectsTrailingComma(s: string)
    ensures !IsFrameSets(s + ",")
  {
    var t := s + ",";
    LastFieldEmpty(t, ',');
    var f := Fields(t, ',');
    assert f[|f| - 1] == [];
    assert Fields("", '-') == [""] by { assert Find("", '-', 0) == 0; }
    assert !IsFrameGroup([]) by { assert !IsDigitRun(Fields("", '-')[0]); }
  }

  /** A group of four or more '-'-separated fields is rejected. */
  lemma {:induction false} FrameSetsRejectsLongGroup(g: string)
    requires ',' !in g && |Fields(g, '-')| >= 4
    ensures !IsFrameSets(g)
  {
    assert Find(g, ',', 0) == |g|;
    assert Fields(g, ',') == [g];
    assert !IsFrameGroup(Fields(g, ',')[0]);
  }

  /** The example "1-2,3-4-5" is accepted. */
  lemma FrameSetsAcceptsExample()
    ensures IsFrameSets("1-2,3-4-5")
  {
    var groups := [["1", "2"], ["3", "4", "5"]];
    assert IsDigitRun("1") && IsDigitRun("2") && IsDigitRun("3") && IsDigitRun("4") && IsDigitRun("5");
    assert WellFormedGroups(groups);
    assert GroupText(groups[0]) == "1-2";
    assert GroupText(groups[1]) == "3-4-5";
    assert GroupTexts(groups) == ["1-2", "3-4-5"];
    assert FrameSetsText(groups) == "1-2,3-4-5";
    FrameSetsTextAccepted(groups);
  }

  /** An accepted list starts with a digit; so "abc" is rejected. */
  lemma {:induction false} FrameSetsStartsWithDigit(s: string)
    requires IsFrameSets(s)
    ensures |s| > 0 && IsDigit(s[0])
  {
    var f := Fields(s, ',');
    assert IsFrameGroup(f[0]);
    var runs := Fields(f[0], '-');
    assert IsDigitRun(runs[0]);
    FirstFieldStart(s, ',');
    FirstFieldStart(f[0], '-');
  }

  lemma FrameSetsRejectsExample()
    ensures !IsFrameSets("abc")
  {
    if IsFrameSets("abc") {
      FrameSetsStartsWithDigit("abc");
    }
  }

  /** The character class `[0-9|a-z|A-Z]` of `IsInteger` as written: the two '|' stand for themselves. */
  predicate IsIntegerClassChar(c: char)
  {
    IsDigit(c) || c == '|' || 'a' <= c <= 'z' || 'A' <= c <= 'Z'
  }

  /** The string without one leading '-'. */
  function DropMinus(s: string): string
  {
    if |s| > 0 && s[0] == '-' then s[1..] else s
  }

  /** `IsInteger`: `^-?([0-9]*|0x[0-9|a-z|A-Z]*)$`. */
  predicate IsInteger(s: string): (b: bool)
    ensures b ==> forall i :: 0 <= i < |s| ==> IsIntegerClassChar(s[i]) || (i == 0 && s[i] == '-')
  {
    var t := DropMinus(s);
    AllDigits(t) || (|t| >= 2 && t[0] == '0' && t[1] == 'x' && forall i :: 2 <= i < |t| ==> IsIntegerClassChar(t[i]))
  }

  /** The class `[0-9a-zA-Z]` that the two '|' in `IsInteger`'s class were evidently meant to separate. */
  predicate IsAlphanumeric(c: char)
  {
    IsDigit(c) || 'a' <= c <= 'z' || 'A' <= c <= 'Z'
  }

  /** `IsInteger` with the class `[0-9a-zA-Z]`. */
  predicate IsIntegerIntended(s: string): (b: bool)
    ensures b ==> forall i :: 0 <= i < |s| ==> IsAlphanumeric(s[i]) || (i == 0 && s[i] == '-')
  {
    var t := DropMinus(s);
    AllDigits(t) || (|t| >= 2 && t[0] == '0' && t[1] == 'x' && forall i :: 2 <= i < |t| ==> IsAlphanumeric(t[i]))
  }

  /** `IsInteger` as written accepts "0x|", which holds no digit or letter after the "0x". */
  lemma IsIntegerAcceptsBar()
    ensures IsInteger("0x|") && !IsIntegerIntended("0x|")
  {
    assert !IsDigit("0x|"[1]);
    assert !IsAlphanumeric("0x|"[2]);
  }

  /** Everything the corrected check accepts, the check as written accepts too. */
  lemma {:induction false} IsIntegerIntendedSound(s: string)
    ensures IsIntegerIntended(s) ==> IsInteger(s)
  {
  }

  /** `IsInteger` accepts "", "-", and every run of digits with or without a leading '-'. */
  lemma {:induction false} IsIntegerDecimal(d: string)
    requires AllDigits(d)
    ensures IsInteger(d) && IsInteger("-" + d)
    ensures IsInteger("") && IsInteger("-")
  {
    assert DropMinus("-" + d) == d;
    if |d| > 0 {
      assert d[0] != '-';
    }
    assert DropMinus("-") == "";
  }

  /** `IsInteger` accepts "0x" followed by digits and letters, with or without a leading '-'. */
  lemma {:induction false} IsIntegerHex(h: string)
    requires forall i :: 0 <= i < |h| ==> IsAlphanumeric(h[i])
    ensures IsInteger("0x" + h) && IsInteger("-0x" + h)
  {
    var t := "0x" + h;
    assert "-0x" + h == "-" + t;
    assert DropMinus("-" + t) == t;
    assert DropMinus(t) == t;
    assert forall i :: 2 <= i < |t| ==> t[i] == h[i - 2];
  }

  /** A '-' anywhere but first is rejected. */
  lemma {:induction false} IsIntegerRejects(s: string, k: nat)
    requires 0 < k < |s| && s[k] == '-'
    ensures !IsInteger(s)
  {
    var t := DropMinus(s);
    if |s| > 0 && s[0] == '-' {
      assert k >= 1 && (k == 1 || t[k - 1] == '-');
      if k == 1 {
        assert t[0] == '-';
      }
    } else {
      assert t[k] == '-';
    }
  }

  /** `IsFloat`: `^-?[0-9]*([.][0-9]*f?)?$`. */
  predicate IsFloat(s: string): (b: bool)
    ensures b ==> forall k :: 0 <= k < |s| ==> IsDigit(s[k]) || s[k] == '.' || s[k] == 'f' || (k == 0 && s[k] == '-')
  {
    var t := DropMinus(s);
    var i := FirstNonDigit(t, 0);
    i == |t| ||
      (t[i] == '.' &&
        var j := FirstNonDigit(t, i + 1);
        j == |t| || (j == |t| - 1 && t[j] == 'f'))
  }

  /** An 'f' that is not preceded by a '.' is rejected, and an accepted 'f' is the last character. */
  lemma {:induction false} IsFloatSuffix(s: string)
    requires 'f' in s
    ensures '.' !in s ==> !IsFloat(s)
    ensures IsFloat(s) ==> s[|s| - 1] == 'f'
  {
    var t := DropMinus(s);
    var k :| 0 <= k < |s| && s[k] == 'f';
    if |s| > 0 && s[0] == '-' {
      assert t[k - 1] == 'f';
      assert forall m :: 0 <= m < |t| ==> t[m] == s[m + 1];
    } else {
      assert t == s;
    }
    var i := FirstNonDigit(t, 0);
    if IsFloat(s) && i < |t| {
      var j := FirstNonDigit(t, i + 1);
      assert t[|t| - 1] == s[|s| - 1];
    }
  }

  /** A digit run from `from` up to `n` that ends at a non-digit or at the end is what `FirstNonDigit` finds. */
  lemma {:induction false} FirstNonDigitAt(t: string, from: nat, n: nat)
    requires from <= n <= |t|
    requires forall k :: from <= k < n ==> IsDigit(t[k])
    requires n == |t| || !IsDigit(t[n])
    ensures FirstNonDigit(t, from) == n
  {
  }

  /** Digits, optionally after a '-', are floats. */
  lemma {:induction false} IsFloatWhole(sign: string, whole: string)
    requires sign == "" || sign == "-"
    requires AllDigits(whole)
    ensures IsFloat(sign + whole)
  {
    if |whole| > 0 { assert whole[0] != '-'; }
    assert DropMinus(sign + whole) == whole;
    FirstNonDigitAt(whole, 0, |whole|);
  }

  /** A leading '-' is dropped before the grammar of the rest is checked. */
  lemma {:induction false} IsFloatSigned(sign: string, t: string)
    requires sign == "" || sign == "-"
    requires |t| > 0 && t[0] != '-'
    ensures IsFloat(sign + t) == IsFloat(t)
  {
    assert DropMinus(sign + t) == t;
  }

  /** Digits, then a '.', digits and an optional 'f', are floats. */
  lemma {:induction false} IsFloatFractionUnsigned(whole: string, fraction: string, suffix: string)
    requires suffix == "" || suffix == "f"
    requires AllDigits(whole) && AllDigits(fraction)
    ensures IsFloat(whole + "." + fraction + suffix)
  {
    var t := whole + "." + fraction + suffix;
    assert t[0] != '-' by { if |whole| > 0 { assert t[0] == whole[0]; } else { assert t[0] == '.'; } }
    assert DropMinus(t) == t;
    assert t[|whole|] == '.';
    FirstNonDigitAt(t, 0, |whole|);
    var n := |whole| + 1 + |fraction|;
    assert forall k :: |whole| + 1 <= k < n ==> t[k] == fraction[k - |whole| - 1];
    assert n < |t| ==> t[n] == 'f';
    FirstNonDigitAt(t, |whole| + 1, n);
  }

  /** Digits, optionally after a '-', then a '.', digits and an optional 'f', are floats. */
  lemma {:induction false} IsFloatFraction(sign: string, whole: string, fraction: string, suffix: string)
    requires sign == "" || sign == "-"
    requires suffix == "" || suffix == "f"
    requires AllDigits(whole) && AllDigits(fraction)
    ensures IsFloat(sign + whole + "." + fraction + suffix)
  {
    var t := whole + "." + fraction + suffix;
    assert sign + whole + "." + fraction + suffix == sign + t;
    assert t[0] != '-' by { if |whole| > 0 { assert t[0] == whole[0]; } else { assert t[0] == '.'; } }
    IsFloatFractionUnsigned(whole, fraction, suffix);
    IsFloatSigned(sign, t);
  }

  /**
   * Every float `IsFloat` accepts has the shape of its pattern: an optional
   * '-', digits, and, when there is a '.', digits and an optional 'f' after it.
   */
  lemma {:induction false} IsFloatShape(s: string)
    returns (sign: string, whole: string, dot: bool, fraction: string, suffix: string)
    requires IsFloat(s)
    ensures sign == "" || sign == "-"
    ensures AllDigits(whole) && AllDigits(fraction)
    ensures suffix == "" || suffix == "f"
    ensures !dot ==> fraction == "" && suffix == ""
    ensures s == sign + whole + (if dot then "." else "") + fraction + suffix
  {
    var t := DropMinus(s);
    sign := if |s| > 0 && s[0] == '-' then "-" else "";
    assert s == sign + t;
    var i := FirstNonDigit(t, 0);
    whole := t[..i];
    DigitsBetween(t, 0, i);
    if i == |t| {
      dot, fraction, suffix := false, "", "";
      assert t == whole;
    } else {
      var j := FirstNonDigit(t, i + 1);
      dot, fraction, suffix := true, t[i + 1..j], t[j..];
      DigitsBetween(t, i + 1, j);
      assert j < |t| ==> t[j..] == [t[j]];
      FloatPieces(sign, t, i, j);
    }
  }

  /** A slice between two positions holding only digits is a run of digits. */
  lemma {:induction false} DigitsBetween(t: string, from: nat, to: nat)
    requires from <= to <= |t|
    requires forall k :: from <= k < to ==> IsDigit(t[k])
    ensures AllDigits(t[from..to])
  {
    assert forall k :: 0 <= k < to - from ==> t[from..to][k] == t[from + k];
  }

  /** A string cut at a '.' and at a later position is the concatenation of its pieces. */
  lemma {:induction false} FloatPieces(sign: string, t: string, i: nat, j: nat)
    requires i < j <= |t| && t[i] == '.'
    ensures sign + t == sign + t[..i] + "." + t[i + 1..j] + t[j..]
  {
    assert t == t[..i] + "." + t[i + 1..j] + t[j..];
  }

  /** Plain decimal integers are also accepted as floats. */
  lemma {:induction false} DecimalIsIntegerAndFloat(s: string)
    requires AllDigits(DropMinus(s))
    ensures IsInteger(s) && IsFloat(s)
  {
    var t := DropMinus(s);
    assert FirstNonDigit(t, 0) == |t|;
  }
}
