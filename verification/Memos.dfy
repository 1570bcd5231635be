/** Splitting a transfer memo at its spaces. */
module Memos {

  predicate SpaceFree(s: string) {
    forall i :: 0 <= i < |s| ==> s[i] != ' '
  }

  function FirstWord(s: string): (w: string)
    ensures |w| <= |s|
  {
    if s == "" || s[0] == ' ' then "" else [s[0]] + FirstWord(s[1..])
  }

  lemma {:induction false} FirstWordEnds(s: string)
    ensures var w := FirstWord(s);
      w == s[..|w|] && SpaceFree(w) && (|w| < |s| ==> s[|w|] == ' ')
  {
    if s != "" && s[0] != ' ' {
      FirstWordEnds(s[1..]);
    }
  }

  /** The words of a memo, each ended by a space or by the end of the memo. */
  function Split(memo: string): seq<string> {
    if memo == "" then []
    else
      var w := FirstWord(memo);
      if |w| == |memo| then [w] else [w] + Split(memo[|w| + 1..])
  }

  function Join(parts: seq<string>): string {
    if parts == [] then ""
    else if |parts| == 1 then parts[0]
    else parts[0] + " " + Join(parts[1..])
  }

  method ParseMemo(memo: string) returns (results: seq<string>)
    ensures results == Split(memo)
  {
    results := [];
    var start, it := 0, 0;
    assert memo[0..] == memo;
    while it < |memo|
      invariant start <= it <= |memo|
      invariant forall i :: start <= i < it ==> memo[i] != ' '
      invariant Split(memo) == results + Split(memo[start..])
    {
      if memo[it] == ' ' {
        CutAtSpace(memo, start, it);
        results := results + [memo[start..it]];
        start := it + 1;
      }
      it := it + 1;
    }
    if start != |memo| {
      SplitLast(memo[start..]);
      results := results + [memo[start..]];
    } else {
      assert memo[start..] == "";
    }
  }

  lemma CutAtSpace(memo: string, start: nat, it: nat)
    requires start <= it < |memo| && memo[it] == ' '
    requires forall i :: start <= i < it ==> memo[i] != ' '
    ensures Split(memo[start..]) == [memo[start..it]] + Split(memo[it + 1..])
  {
    assert memo[start..] == memo[start..it] + " " + memo[it + 1..];
    SplitWord(memo[start..it], memo[it + 1..]);
  }

  lemma {:induction false} FirstWordIs(s: string, n: nat)
    requires n <= |s| && SpaceFree(s[..n]) && (n < |s| ==> s[n] == ' ')
    ensures FirstWord(s) == s[..n]
  {
    if n != 0 {
      assert s[0] == s[..n][0];
      assert s[1..][..n - 1] == s[..n][1..];
      FirstWordIs(s[1..], n - 1);
    }
  }

  lemma SplitWord(w: string, rest: string)
    requires SpaceFree(w)
    ensures Split(w + " " + rest) == [w] + Split(rest)
  {
    var memo := w + " " + rest;
    assert memo[..|w|] == w;
    FirstWordIs(memo, |w|);
    assert memo[|w| + 1..] == rest;
  }

  lemma SplitLast(w: string)
    requires SpaceFree(w) && w != ""
    ensures Split(w) == [w]
  {
    assert w[..|w|] == w;
    FirstWordIs(w, |w|);
  }

  lemma JoinCons(w: string, parts: seq<string>)
    ensures Join([w] + parts) == if parts == [] then w else w + " " + Join(parts)
  {
  }

  ghost predicate AreWords(parts: seq<string>) {
    forall i :: 0 <= i < |parts| ==> SpaceFree(parts[i])
  }

  /** The parts have no spaces, and joined by single spaces they are the memo or lack its last space. */
  lemma {:induction false} SplitThenJoin(memo: string)
    ensures AreWords(Split(memo))
    ensures memo == Join(Split(memo)) || (memo == Join(Split(memo)) + " " && Split(memo) != [])
    decreases |memo|
  {
    if memo != "" {
      var w := FirstWord(memo);
      FirstWordEnds(memo);
      if |w| < |memo| {
        var rest := memo[|w| + 1..];
        assert memo == w + " " + rest;
        SplitThenJoin(rest);
        JoinCons(w, Split(rest));
        assert w + " " + (Join(Split(rest)) + " ") == (w + " " + Join(Split(rest))) + " ";
      }
    }
  }

  /** The other way round, every list of space-free parts comes back. */
  lemma {:induction false} JoinThenSplit(parts: seq<string>)
    requires AreWords(parts)
    ensures parts != [] ==> Split(Join(parts) + " ") == parts
    ensures (parts == [] || parts[|parts| - 1] != "") ==> Split(Join(parts)) == parts
  {
    if |parts| >= 1 {
      var w, tail := parts[0], parts[1..];
      assert parts == [w] + tail;
      JoinThenSplit(tail);
      JoinCons(w, tail);
      if tail == [] {
        SplitWord(w, "");
        assert w + " " + "" == w + " ";
        if w != "" { SplitLast(w); }
      } else {
        SplitWord(w, Join(tail));
        SplitWord(w, Join(tail) + " ");
        assert w + " " + (Join(tail) + " ") == Join(parts) + " ";
      }
    }
  }

  /** A memo reads as a deposit to n exactly when it is "deposit n", with at most one space after n;
      the empty n needs that space. */
  lemma DepositMemo(memo: string, n: string)
    ensures Split(memo) == ["deposit", n]
       <==> SpaceFree(n) && ((n != "" && memo == "deposit " + n) || memo == "deposit " + n + " ")
  {
    var parts := ["deposit", n];
    assert Join(parts[1..]) == n;
    assert Join(parts) == "deposit " + n;
    if Split(memo) == parts {
      SplitThenJoin(memo);
      assert SpaceFree(parts[1]);
      JoinThenSplit(["deposit"]);
      assert Join(["deposit"]) + " " == "deposit " + "";
    }
    if SpaceFree(n) {
      JoinThenSplit(parts);
    }
  }
}
