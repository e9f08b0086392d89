/**
 * Tab completion for the terminal: `computeCompletions` finds the token that
 * ends at the caret and the candidates that extend it, `applyCompletion`
 * splices a candidate over that token.
 */
module Completion {
  import opened Text
  import opened Catalog

  function Min(a: int, b: int): int {
    if a <= b then a else b
  }

  /** The candidates for one Tab press and the span `[start, end)` of the token they replace. */
  datatype Candidates = Candidates(list: seq<string>, start: nat, end: nat)

  /**
   * What `open` completes from: the desktop's application ids, then the alias
   * table's names, once each. The page builds both lists when it loads, so the
   * terminal computes this pool once and hands it to `ComputeCompletions`.
   */
  function OpenPool(appIds: seq<string>): (pool: seq<string>)
    ensures Distinct(pool)
    ensures forall x :: x in pool <==> x in appIds || exists i :: 0 <= i < |AliasMap| && Matches(AliasMap[i], x)
    ensures forall i, j :: 0 <= i < j < |pool| && pool[j] in appIds ==> pool[i] in appIds
  {
    OrderedUnion(appIds, AppAliases())
  }

  /**
   * The name pool chosen by the text `left` before the caret: commands while the
   * caret is in the first word, the application names `openPool` after `open`,
   * the readable file after `cat`, nothing otherwise.
   */
  function CandidatePool(left: string, caret: nat, openPool: seq<string>): seq<string> {
    var firstSpace := IndexOf(left, ' ');
    var firstToken := if firstSpace == -1 then left else Trim(left[..firstSpace]);
    if firstSpace == -1 || caret <= firstSpace then Commands
    else if firstToken == "open" then openPool
    else if firstToken == "cat" then [ReadableFile]
    else []
  }

  /**
   * `computeCompletions(value, caretIndex)`. The token runs from just after the
   * last space before the caret up to the caret (a caret past the end counts as
   * the end, as `slice` does), and the candidates are exactly the pool's names
   * that start with it.
   */
  function ComputeCompletions(value: string, caret: nat, openPool: seq<string>): (c: Candidates)
    ensures c.start <= c.end == Min(caret, |value|)
    ensures ' ' !in value[c.start..c.end]
    ensures c.start == 0 || value[c.start - 1] == ' '
    ensures forall x :: x in c.list ==> value[c.start..c.end] <= x
    ensures c.list == FilterPrefix(CandidatePool(value[..c.end], caret, openPool), value[c.start..c.end])
    ensures forall x :: x in c.list <==>
      x in CandidatePool(value[..c.end], caret, openPool) && value[c.start..c.end] <= x
  {
    var left := value[..Min(caret, |value|)];
    var lastSpace := LastIndexOf(left, ' ');
    var tokenStart := lastSpace + 1;
    var token := left[tokenStart..];
    assert token == value[tokenStart..|left|];
    Candidates(FilterPrefix(CandidatePool(left, caret, openPool), token), tokenStart, tokenStart + |token|)
  }

  /**
   * The pool as the code actually picks it: the `caretIndex <= firstSpace` test
   * never fires, because a space found before the caret lies before it, so
   * commands are offered exactly when the text before the caret has no space.
   */
  lemma PoolByFirstWord(value: string, caret: nat, openPool: seq<string>)
    ensures var left := value[..Min(caret, |value|)];
      var k := IndexOf(left, ' ');
      var pool := CandidatePool(left, caret, openPool);
      (k == -1 ==> pool == Commands)
      && (k != -1 && Trim(left[..k]) == "open" ==> pool == openPool)
      && (k != -1 && Trim(left[..k]) == "cat" ==> pool == [ReadableFile])
      && (k != -1 && Trim(left[..k]) != "open" && Trim(left[..k]) != "cat" ==> pool == [])
  {
  }

  /** Completing the first word `op` offers exactly the command `open`. */
  lemma CompleteOp(openPool: seq<string>)
    ensures ComputeCompletions("op", 2, openPool) == Candidates(["open"], 0, 2)
  {
    var c := ComputeCompletions("op", 2, openPool);
    assert c.start == 0 by {
      assert LastIndexOf("op", ' ') == -1 by { assert ' ' !in "op"; }
    }
    assert c.list == FilterPrefix(CandidatePool("op", 2, openPool), "op") by {
      assert LastIndexOf("op", ' ') == -1 by { assert ' ' !in "op"; }
      assert "op"[..Min(2, 2)] == "op";
      assert "op"[0..] == "op";
    }
    assert CandidatePool("op", 2, openPool) == Commands by {
      assert ' ' !in "op";
      assert IndexOf("op", ' ') == -1;
    }
    OnlyOpenStartsWithOp();
  }

  lemma OnlyOpenStartsWithOp()
    ensures FilterPrefix(Commands, "op") == ["open"]
  {
    forall j | 0 <= j < |Commands| && j != 3
      ensures !("op" <= Commands[j])
    {
      assert Commands[j][0] != 'o';
    }
    FilterPrefixSingle(Commands, "op", 3);
  }

  /**
   * `applyCompletion(value, start, end, replacement)`: the text before `start`,
   * then the replacement, then the text from `end` on (both offsets cut off at
   * the end of the text, as `slice` does). Within bounds, nothing outside the
   * span changes.
   */
  function ApplyCompletion(value: string, start: nat, end: nat, replacement: string): (r: string)
    ensures start <= end <= |value| ==>
      && |r| == |value| - (end - start) + |replacement|
      && r[..start] == value[..start]
      && r[start..start + |replacement|] == replacement
      && r[start + |replacement|..] == value[end..]
  {
    value[..Min(start, |value|)] + replacement + value[Min(end, |value|)..]
  }

  /** Splicing the span's own text back in leaves the text as it was. */
  lemma ApplyOwnSpan(value: string, start: nat, end: nat)
    requires start <= end <= |value|
    ensures ApplyCompletion(value, start, end, value[start..end]) == value
  {
    assert value == value[..start] + value[start..end] + value[end..];
  }

  /**
   * Splicing `b` over the span that `a` just filled is the same as splicing `b`
   * over the original span: completion candidates replace each other cleanly.
   */
  lemma ApplyTwice(value: string, start: nat, end: nat, a: string, b: string)
    requires start <= end <= |value|
    ensures ApplyCompletion(ApplyCompletion(value, start, end, a), start, start + |a|, b)
         == ApplyCompletion(value, start, end, b)
  {
    var once := ApplyCompletion(value, start, end, a);
    assert once[..start] == value[..start];
    assert once[start + |a|..] == value[end..];
  }
}
