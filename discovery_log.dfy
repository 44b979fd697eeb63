/** Reading the outside-discovery log: `re.findall(r"Return code: ([0-9]{3})", log)`
    and the test on its last capture. */
module DiscoveryLog {
  import opened Optional

  const RC_PREFIX := "Return code: "

  predicate IsDigit(c: char) {
    '0' <= c <= '9'
  }

  predicate AllDigits(s: string) {
    forall d :: 0 <= d < |s| ==> IsDigit(s[d])
  }

  /** The pattern matches at `i`: the prefix followed by three digits. */
  predicate CodeAt(log: string, i: nat) {
    && i + |RC_PREFIX| + 3 <= |log|
    && log[i..i + |RC_PREFIX|] == RC_PREFIX
    && AllDigits(log[i + |RC_PREFIX|..i + |RC_PREFIX| + 3])
  }

  /** The captures of the non-overlapping matches from position `i` on. */
  function CodesFrom(log: string, i: nat): (r: seq<string>)
    ensures forall k :: 0 <= k < |r| ==> |r[k]| == 3 && AllDigits(r[k])
    decreases |log| - i
  {
    if i + |RC_PREFIX| + 3 > |log| then []
    else if CodeAt(log, i) then [log[i + |RC_PREFIX|..i + |RC_PREFIX| + 3]] + CodesFrom(log, i + |RC_PREFIX| + 3)
    else CodesFrom(log, i + 1)
  }

  function ReturnCodes(log: string): (r: seq<string>)
    ensures forall k :: 0 <= k < |r| ==> |r[k]| == 3 && AllDigits(r[k])
  {
    CodesFrom(log, 0)
  }

  /** Python's `int(digits)`. */
  function DecimalValue(digits: string): nat
    requires AllDigits(digits)
  {
    if |digits| == 0 then 0
    else DecimalValue(digits[..|digits| - 1]) * 10 + (digits[|digits| - 1] as int - '0' as int)
  }

  /** The log shows an earlier successful run: it could be read and the last
      return code in it is 200. A missing log or one without codes does not. */
  predicate AlreadyExecuted(log: Option<string>): (r: bool)
    ensures r <==> log.Some? && |ReturnCodes(log.value)| > 0 &&
                   ReturnCodes(log.value)[|ReturnCodes(log.value)| - 1] == "200"
  {
    log.Some? &&
    var codes := ReturnCodes(log.value);
    |codes| > 0 && (ThreeDigitsAre200(codes[|codes| - 1]); DecimalValue(codes[|codes| - 1]) == 200)
  }

  /** A three-digit capture reads as 200 exactly when it is the text `200`. */
  lemma ThreeDigitsAre200(c: string)
    requires |c| == 3 && AllDigits(c)
    ensures DecimalValue(c) == 200 <==> c == "200"
  {
    assert c[..2][..1] == c[..1];
    var d0, d1, d2 := c[0] as int - '0' as int, c[1] as int - '0' as int, c[2] as int - '0' as int;
    assert DecimalValue(c[..1]) == d0;
    assert DecimalValue(c[..2]) == d0 * 10 + d1;
    assert DecimalValue(c) == d0 * 100 + d1 * 10 + d2;
    if c == "200" {
      assert d0 == 2 && d1 == 0 && d2 == 0;
    }
    if DecimalValue(c) == 200 {
      assert d0 == 2 && d1 == 0 && d2 == 0;
      assert c == [c[0], c[1], c[2]];
    }
  }

  /** No match can start in `log` and run into an appended `Return code: ` line. */
  lemma NoMatchStraddles(log: string, tail: string, i: nat)
    requires |RC_PREFIX| <= |tail| && tail[..|RC_PREFIX|] == RC_PREFIX
    requires i < |log| < i + |RC_PREFIX| + 3
    ensures !CodeAt(log + tail, i)
  {
    var s := log + tail;
    var o := |log| - i;
    assert s[|log|] == 'R';
    if o < |RC_PREFIX| {
      assert s[i..i + |RC_PREFIX|][o] == 'R' != RC_PREFIX[o];
    } else if i + |RC_PREFIX| + 3 <= |s| {
      assert s[i + |RC_PREFIX|..i + |RC_PREFIX| + 3][o - |RC_PREFIX|] == 'R';
    }
  }

  /** The positions where the scan's matches start, one per capture. */
  ghost function MatchStarts(log: string, i: nat): seq<nat>
    decreases |log| - i
  {
    if i + |RC_PREFIX| + 3 > |log| then []
    else if CodeAt(log, i) then [i] + MatchStarts(log, i + |RC_PREFIX| + 3)
    else MatchStarts(log, i + 1)
  }

  /** The text a match starting at `p` captures. */
  function Capture(log: string, p: nat): string
    requires p + |RC_PREFIX| + 3 <= |log|
  {
    log[p + |RC_PREFIX|..p + |RC_PREFIX| + 3]
  }

  /** The captures are those of matches: the `k`-th capture is the code of a
      match starting at the `k`-th start, at or after `i`. */
  lemma {:induction false} CodesAreMatches(log: string, i: nat)
    ensures |CodesFrom(log, i)| == |MatchStarts(log, i)|
    ensures forall k :: 0 <= k < |MatchStarts(log, i)| ==>
              i <= MatchStarts(log, i)[k] && CodeAt(log, MatchStarts(log, i)[k]) &&
              CodesFrom(log, i)[k] == Capture(log, MatchStarts(log, i)[k])
    decreases |log| - i
  {
    if i + |RC_PREFIX| + 3 > |log| {
    } else if CodeAt(log, i) {
      var n := i + |RC_PREFIX| + 3;
      CodesAreMatches(log, n);
      var codes, starts := CodesFrom(log, n), MatchStarts(log, n);
      assert CodesFrom(log, i) == [Capture(log, i)] + codes;
      assert MatchStarts(log, i) == [i] + starts;
    } else {
      CodesAreMatches(log, i + 1);
    }
  }

  /** The matches are taken left to right and never overlap. */
  lemma {:induction false} StartsIncrease(log: string, i: nat)
    ensures forall k :: 0 < k < |MatchStarts(log, i)| ==>
              MatchStarts(log, i)[k - 1] + |RC_PREFIX| + 3 <= MatchStarts(log, i)[k]
    decreases |log| - i
  {
    if i + |RC_PREFIX| + 3 > |log| {
    } else if CodeAt(log, i) {
      var n := i + |RC_PREFIX| + 3;
      StartsIncrease(log, n);
      CodesAreMatches(log, n);
      var starts := MatchStarts(log, n);
      assert MatchStarts(log, i) == [i] + starts;
    } else {
      StartsIncrease(log, i + 1);
    }
  }

  /** And nothing else: every match at or after `i` is a captured match or
      overlaps one that starts before it. */
  lemma {:induction false} MatchCovered(log: string, i: nat, j: nat) returns (k: nat)
    requires i <= j && CodeAt(log, j)
    ensures k < |MatchStarts(log, i)|
    ensures MatchStarts(log, i)[k] <= j < MatchStarts(log, i)[k] + |RC_PREFIX| + 3
    decreases |log| - i
  {
    if CodeAt(log, i) {
      if j < i + |RC_PREFIX| + 3 {
        k := 0;
      } else {
        var k' := MatchCovered(log, i + |RC_PREFIX| + 3, j);
        k := k' + 1;
      }
    } else {
      k := MatchCovered(log, i + 1, j);
    }
  }

  /** The scan captures nothing exactly when no match starts at or after `i`. */
  lemma NoCodesIff(log: string, i: nat)
    ensures CodesFrom(log, i) == [] <==> forall j: nat :: i <= j ==> !CodeAt(log, j)
  {
    CodesAreMatches(log, i);
    if CodesFrom(log, i) != [] {
      var p := MatchStarts(log, i)[0];
      assert i <= p && CodeAt(log, p);
    }
    if exists j: nat :: i <= j && CodeAt(log, j) {
      var j: nat :| i <= j && CodeAt(log, j);
      var k := MatchCovered(log, i, j);
    }
  }

  /** Matches inside an appended text are the matches of that text. */
  lemma CodeAtShift(pre: string, t: string, j: nat)
    ensures CodeAt(pre + t, |pre| + j) <==> CodeAt(t, j)
  {
    var s := pre + t;
    if |pre| + j + |RC_PREFIX| + 3 <= |s| {
      assert s[|pre| + j..|pre| + j + |RC_PREFIX|] == t[j..j + |RC_PREFIX|];
      assert s[|pre| + j + |RC_PREFIX|..|pre| + j + |RC_PREFIX| + 3] == t[j + |RC_PREFIX|..j + |RC_PREFIX| + 3];
    }
  }

  /** Scanning from inside `log` reaches the record `Return code: c`, and a
      tail without records adds nothing after it, so `c` is the last capture. */
  lemma {:induction false} ScanEndsWithRecord(log: string, c: string, tail: string, i: nat)
    requires |c| == 3 && AllDigits(c) && i <= |log|
    requires ReturnCodes(tail) == []
    ensures var r := CodesFrom(log + RC_PREFIX + c + tail, i); |r| > 0 && r[|r| - 1] == c
    decreases |log| - i
  {
    var s := log + RC_PREFIX + c + tail;
    var rest := RC_PREFIX + c + tail;
    assert s == log + rest;
    assert rest[..|RC_PREFIX|] == RC_PREFIX;
    if i == |log| {
      assert s[i..i + |RC_PREFIX|] == RC_PREFIX;
      assert s[i + |RC_PREFIX|..i + |RC_PREFIX| + 3] == c;
      assert CodeAt(s, i);
      var pre := log + RC_PREFIX + c;
      assert s == pre + tail && |pre| == i + |RC_PREFIX| + 3;
      NoCodesIff(tail, 0);
      forall j: nat | i + |RC_PREFIX| + 3 <= j
        ensures !CodeAt(s, j)
      {
        CodeAtShift(pre, tail, j - |pre|);
      }
      NoCodesIff(s, i + |RC_PREFIX| + 3);
    } else if CodeAt(s, i) {
      if i + |RC_PREFIX| + 3 > |log| {
        NoMatchStraddles(log, rest, i);
      }
      ScanEndsWithRecord(log, c, tail, i + |RC_PREFIX| + 3);
    } else {
      ScanEndsWithRecord(log, c, tail, i + 1);
    }
  }

  /** Only the most recent record counts: in any log whose last record is
      `Return code: NNN`, the verdict depends on `NNN` alone, whatever comes
      before it and whatever record-free text follows it. */
  lemma LastRecordDecides(log: string, c: string, tail: string)
    requires |c| == 3 && AllDigits(c)
    requires ReturnCodes(tail) == []
    ensures AlreadyExecuted(Some(log + RC_PREFIX + c + tail)) <==> c == "200"
  {
    ScanEndsWithRecord(log, c, tail, 0);
  }
}
