/**
 * The single-character tokenizer `Split` of layer_settings_util.cpp.
 *
 * `Fields(v, d)` is the complete split of `v` at every `d` (always one more
 * field than there are delimiters); `Tokens(v, d)` is what `Split` returns:
 * the fields, with an empty final field dropped.
 */
module Tokenizer {

  /** `std::string::find(d, from)`, with |s| standing for `npos`. */
  function Find(s: string, d: char, from: nat): (i: nat)
    requires from <= |s|
    ensures from <= i <= |s|
    ensures i < |s| ==> s[i] == d
    ensures forall k :: from <= k < i ==> s[k] != d
    decreases |s| - from
  {
    if from == |s| then |s|
    else if s[from] == d then from
    else Find(s, d, from + 1)
  }

  /** Every field between delimiters, the empty ones included. */
  function Fields(s: string, d: char): (r: seq<string>)
    ensures |r| >= 1
    decreases |s|
  {
    var i := Find(s, d, 0);
    if i == |s| then [s] else [s[..i]] + Fields(s[i + 1..], d)
  }

  /** What `Split` returns: the fields without an empty final one. */
  function Tokens(s: string, d: char): (r: seq<string>)
    ensures r == Fields(s, d) || r + [[]] == Fields(s, d)
    ensures r == Fields(s, d) <==> Fields(s, d)[|Fields(s, d)| - 1] != []
  {
    var f := Fields(s, d);
    if f[|f| - 1] == [] then f[..|f| - 1] else f
  }

  /** The fields glued back together with `d` between neighbours. */
  function Join(ts: seq<string>, d: char): string
  {
    if |ts| == 0 then []
    else if |ts| == 1 then ts[0]
    else ts[0] + [d] + Join(ts[1..], d)
  }

  ghost predicate NoneContains(ts: seq<string>, d: char)
  {
    forall i :: 0 <= i < |ts| ==> d !in ts[i]
  }

  /** `Split`: the `while` loop advancing `start` and `end` over the delimiters. */
  method Split(value: string, delimiter: char) returns (result: seq<string>)
    ensures result == Tokens(value, delimiter)
  {
    result := [];
    var start := 0;
    var end := Find(value, delimiter, 0);
    assert value[0..] == value;
    while end != |value|
      invariant start <= end <= |value|
      invariant end == Find(value, delimiter, start)
      invariant result + Fields(value[start..], delimiter) == Fields(value, delimiter)
      decreases |value| - start
    {
      SplitStep(value, delimiter, start, end, result);
      result := result + [value[start..end]];
      start := end + 1;
      end := Find(value, delimiter, start);
    }
    SplitLast(value, delimiter, start, result);
    var last := value[start..];
    if last != [] {
      result := result + [last];
    }
  }

  /** One turn of the loop in `Split`: the field up to the next delimiter moves into the result. */
  lemma {:induction false} SplitStep(value: string, d: char, start: nat, e: nat, done: seq<string>)
    requires start <= |value| && e == Find(value, d, start) && e < |value|
    requires done + Fields(value[start..], d) == Fields(value, d)
    ensures (done + [value[start..e]]) + Fields(value[e + 1..], d) == Fields(value, d)
  {
    FieldsFrom(value, d, start);
    var head := [value[start..e]];
    var rest := Fields(value[e + 1..], d);
    assert Fields(value[start..], d) == head + rest;
    calc {
      (done + head) + rest;
      done + (head + rest);
      Fields(value, d);
    }
  }

  /** After the loop in `Split`: the remainder is the last field, kept only when non-empty. */
  lemma {:induction false} SplitLast(value: string, d: char, start: nat, done: seq<string>)
    requires start <= |value| && Find(value, d, start) == |value|
    requires done + Fields(value[start..], d) == Fields(value, d)
    ensures (if value[start..] != [] then done + [value[start..]] else done) == Tokens(value, d)
  {
    FieldsFrom(value, d, start);
    var f := Fields(value, d);
    assert f == done + [value[start..]];
    assert f[..|f| - 1] == done;
  }

  /** Searching from `from` is searching the suffix that starts there. */
  lemma {:induction false} FindShift(s: string, d: char, from: nat)
    requires from <= |s|
    ensures Find(s, d, from) == from + Find(s[from..], d, 0)
  {
    assert forall k :: from <= k < |s| ==> s[from..][k - from] == s[k];
  }

  /** The fields of the suffix at `start`, unfolded once at the next delimiter. */
  lemma {:induction false} FieldsFrom(s: string, d: char, start: nat)
    requires start <= |s|
    ensures var e := Find(s, d, start);
      if e == |s| then Fields(s[start..], d) == [s[start..]]
      else Fields(s[start..], d) == [s[start..e]] + Fields(s[e + 1..], d)
  {
    var t := s[start..];
    var e := Find(s, d, start);
    FindShift(s, d, start);
    assert Find(t, d, 0) == e - start;
    if e < |s| {
      assert t[..e - start] == s[start..e];
      assert t[e - start + 1..] == s[e + 1..];
      assert Fields(t, d) == [t[..e - start]] + Fields(t[e - start + 1..], d);
    }
  }

  /** No field contains the delimiter. */
  lemma {:induction false} FieldsNoDelimiter(s: string, d: char)
    ensures NoneContains(Fields(s, d), d)
    decreases |s|
  {
    var i := Find(s, d, 0);
    if i < |s| {
      FieldsNoDelimiter(s[i + 1..], d);
      var f := Fields(s, d);
      forall k | 0 <= k < |f| ensures d !in f[k] {
        if k > 0 {
          assert f[k] == Fields(s[i + 1..], d)[k - 1];
        }
      }
    }
  }

  /** The first field is empty exactly when the string starts with the delimiter, and otherwise starts as the string does. */
  lemma {:induction false} FirstFieldStart(s: string, d: char)
    ensures var f0 := Fields(s, d)[0];
      if s == [] || s[0] == d then f0 == [] else |f0| > 0 && f0[0] == s[0]
  {
    if s != [] && s[0] == d {
      assert Find(s, d, 0) == 0;
    }
  }

  /** Every character other than the delimiter stands somewhere in some field. */
  lemma {:induction false} FieldsCharAt(s: string, d: char, k: nat) returns (i: nat, m: nat)
    requires k < |s| && s[k] != d
    ensures i < |Fields(s, d)| && m < |Fields(s, d)[i]| && Fields(s, d)[i][m] == s[k]
    decreases |s|
  {
    var e := Find(s, d, 0);
    if k < e {
      i, m := 0, k;
    } else {
      assert e < |s| && k > e;
      var t := s[e + 1..];
      assert t[k - e - 1] == s[k];
      var i', m' := FieldsCharAt(t, d, k - e - 1);
      i, m := i' + 1, m';
    }
  }

  /** Joining the fields gives back the input. */
  lemma {:induction false} JoinFields(s: string, d: char)
    ensures Join(Fields(s, d), d) == s
    decreases |s|
  {
    var i := Find(s, d, 0);
    if i < |s| {
      var rest := s[i + 1..];
      var tail := Fields(rest, d);
      JoinFields(rest, d);
      var f := Fields(s, d);
      assert f == [s[..i]] + tail;
      assert f[1..] == tail;
      assert Join(f, d) == s[..i] + [d] + Join(tail, d);
      assert s == s[..i] + [d] + rest;
    }
  }

  /** The fields are the only delimiter-free split of a string: splitting a join gives the parts back. */
  lemma {:induction false} FieldsOfJoin(ts: seq<string>, d: char)
    requires |ts| >= 1
    requires NoneContains(ts, d)
    ensures Fields(Join(ts, d), d) == ts
    decreases |ts|
  {
    var s := Join(ts, d);
    if |ts| == 1 {
      assert Find(s, d, 0) == |s|;
    } else {
      assert NoneContains(ts[1..], d) by {
        forall k | 0 <= k < |ts| - 1 ensures d !in ts[1..][k] { assert ts[1..][k] == ts[k + 1]; }
      }
      FieldsOfJoin(ts[1..], d);
      assert s == ts[0] + [d] + Join(ts[1..], d);
      FieldsCons(ts[0], Join(ts[1..], d), d);
      assert [ts[0]] + ts[1..] == ts;
    }
  }

  /** A delimiter-free field followed by the delimiter is split off as the first field. */
  lemma {:induction false} FieldsCons(h: string, rest: string, d: char)
    requires d !in h
    ensures Fields(h + [d] + rest, d) == [h] + Fields(rest, d)
  {
    var s := h + [d] + rest;
    assert s[|h|] == d;
    assert forall k :: 0 <= k < |h| ==> s[k] == h[k];
    assert Find(s, d, 0) == |h|;
    assert s[..|h|] == h;
    assert s[|h| + 1..] == rest;
  }

  /** The last field is empty exactly when the input is empty or ends with the delimiter. */
  lemma {:induction false} LastFieldEmpty(s: string, d: char)
    ensures var f := Fields(s, d); f[|f| - 1] == [] <==> s == [] || s[|s| - 1] == d
    decreases |s|
  {
    var i := Find(s, d, 0);
    if i < |s| {
      var t := s[i + 1..];
      LastFieldEmpty(t, d);
      if t != [] {
        assert t[|t| - 1] == s[|s| - 1];
      }
    }
  }

  lemma {:induction false} JoinSnoc(ts: seq<string>, x: string, d: char)
    requires |ts| >= 1
    ensures Join(ts + [x], d) == Join(ts, d) + [d] + x
    decreases |ts|
  {
    if |ts| > 1 {
      assert (ts + [x])[1..] == ts[1..] + [x];
      JoinSnoc(ts[1..], x, d);
    }
  }

  /** No token of `Split` contains the delimiter. */
  lemma {:induction false} TokensNoDelimiter(s: string, d: char)
    ensures NoneContains(Tokens(s, d), d)
  {
    FieldsNoDelimiter(s, d);
  }

  /**
   * Joining the tokens of `Split` gives back the input, short of the one
   * trailing delimiter whose empty final field was dropped.
   */
  lemma {:induction false} TokensJoin(s: string, d: char)
    ensures if s != [] && s[|s| - 1] == d then Join(Tokens(s, d), d) + [d] == s
            else Join(Tokens(s, d), d) == s
  {
    if s != [] && s[|s| - 1] == d {
      TokensJoinTrailing(s, d);
    } else {
      JoinFields(s, d);
      LastFieldEmpty(s, d);
      if s == [] {
        assert Fields(s, d) == [[]];
      }
    }
  }

  lemma {:induction false} TokensJoinTrailing(s: string, d: char)
    requires s != [] && s[|s| - 1] == d
    ensures Join(Tokens(s, d), d) + [d] == s
  {
    JoinFields(s, d);
    LastFieldEmpty(s, d);
    var f := Fields(s, d);
    var init := f[..|f| - 1];
    assert Find(s, d, 0) < |s|;
    assert |f| >= 2;
    assert f == init + [[]];
    JoinSnoc(init, [], d);
  }

  /** Splitting the join of delimiter-free parts whose last part is non-empty gives the parts back. */
  lemma {:induction false} TokensOfJoin(ts: seq<string>, d: char)
    requires |ts| >= 1 && ts[|ts| - 1] != []
    requires NoneContains(ts, d)
    ensures Tokens(Join(ts, d), d) == ts
  {
    FieldsOfJoin(ts, d);
  }

  /** Interior empty fields are kept. */
  lemma {:induction false} SplitKeepsInteriorEmpty()
    ensures Tokens("a,,b", ',') == ["a", "", "b"]
  {
    assert Join(["a", "", "b"], ',') == "a,,b";
    TokensOfJoin(["a", "", "b"], ',');
  }

  /** A trailing delimiter does not produce an empty final token. */
  lemma {:induction false} SplitDropsTrailingEmpty()
    ensures Tokens("a,b,", ',') == ["a", "b"]
  {
    var parts := ["a", "b", ""];
    assert NoneContains(parts, ',');
    assert Join(parts, ',') == "a,b,";
    FieldsOfJoin(parts, ',');
  }

  /** A lone delimiter gives one empty token, the interior field before it. */
  lemma {:induction false} SplitLoneDelimiter()
    ensures Tokens(",", ',') == [""]
  {
    var parts := ["", ""];
    assert NoneContains(parts, ',');
    assert Join(parts, ',') == ",";
    FieldsOfJoin(parts, ',');
  }

  /** The empty string has no tokens. */
  lemma {:induction false} SplitEmpty(d: char)
    ensures Tokens("", d) == []
  {
    assert Find("", d, 0) == 0;
  }
}
