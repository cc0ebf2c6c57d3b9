/** The search of a process command line for one of several words. The command line is a buffer
    of NUL-terminated arguments with a NUL behind its last byte; the words are given in one
    text, separated by colons. */
module Tokens {
  import opened Text

  predicate HasNoNul(s: string) { forall i | 0 <= i < |s| :: s[i] != '\0' }

  /** The end of the argument that starts at `p`. */
  function StringEnd(line: string, p: nat): (e: nat)
    requires p <= |line|
    ensures p <= e <= |line| && (forall i | p <= i < e :: line[i] != '\0') && (e < |line| ==> line[e] == '\0')
    decreases |line| - p
  {
    if p < |line| && line[p] != '\0' then StringEnd(line, p + 1) else p
  }

  /** A word of a text: a piece without colons that cannot be made longer. */
  ghost predicate TokenAt(tokens: string, i: nat, j: nat) {
    && i < j <= |tokens|
    && (forall k | i <= k < j :: tokens[k] != ':')
    && (i > 0 ==> tokens[i - 1] == ':')
    && (j < |tokens| ==> tokens[j] == ':')
  }

  /** A word occurs in the command line. */
  ghost predicate FoundAt(line: string, tokens: string, i: nat, j: nat) {
    TokenAt(tokens, i, j) && Contains(line, tokens[i..j])
  }

  /** `strtok_s`: the next word from `from` on. */
  method NextToken(tokens: string, from: nat) returns (found: bool, i: nat, j: nat)
    requires from <= |tokens| && (from > 0 && from < |tokens| ==> tokens[from] == ':')
    ensures found ==> from <= i && TokenAt(tokens, i, j)
    ensures forall k: nat, l: nat | from <= k && TokenAt(tokens, k, l) :: found && ((k == i && l == j) || k > j)
  {
    i := from;
    while i < |tokens| && tokens[i] == ':'
      invariant from <= i <= |tokens| && forall k | from <= k < i :: tokens[k] == ':'
    {
      i := i + 1;
    }
    found, j := i < |tokens|, i;
    while j < |tokens| && tokens[j] != ':'
      invariant i <= j <= |tokens| && forall k | i <= k < j :: tokens[k] != ':'
    {
      j := j + 1;
    }
    forall k: nat, l: nat | from <= k && TokenAt(tokens, k, l)
      ensures found && ((k == i && l == j) || k > j)
    {
      assert tokens[k] != ':';
    }
  }

  /** A word without NUL lies within one argument: if it does not occur in the argument that
      starts at `p`, it does not start anywhere before the end of that argument. */
  lemma {:induction false} NotInSegment(line: string, token: string, p: nat, e: nat)
    requires token != "" && HasNoNul(token) && p < e <= |line| && e == StringEnd(line, p)
    requires !Contains(line[p..e], token)
    ensures forall k: nat | p <= k < e :: !OccursAt(line, token, k)
  {
    forall k: nat | p <= k < e
      ensures !OccursAt(line, token, k)
    {
      if k + |token| <= e {
        InSegment(line, token, p, e, k);
        assert !OccursAt(line[p..e], token, k - p);
      } else if k + |token| <= |line| {
        assert line[k..k + |token|][e - k] == '\0' != token[e - k];
      }
    }
  }

  lemma InSegment(line: string, token: string, p: nat, e: nat, k: nat)
    requires p <= k && k + |token| <= e <= |line|
    ensures OccursAt(line[p..e], token, k - p) <==> OccursAt(line, token, k)
  {
    var n, segment := |token|, line[p..e];
    var a, b := segment[k - p..k - p + n], line[k..k + n];
    forall j | 0 <= j < n ensures a[j] == b[j] {
      assert a[j] == segment[k - p + j] == line[k + j] == b[j];
    }
    assert |a| == |b| == n && a == b;
  }

  /** One word: the arguments are searched one after the other. */
  method ContainsToken(line: string, token: string) returns (r: bool)
    requires token != "" && HasNoNul(token)
    ensures r <==> Contains(line, token)
  {
    var i := 0;
    while i < |line|
      invariant 0 <= i <= |line|
      invariant forall k: nat | k < i :: !OccursAt(line, token, k)
      decreases |line| - i
    {
      var e := StringEnd(line, i);
      if e == i {
        i := i + 1;
        continue;
      }
      if Contains(line[i..e], token) {
        ghost var k: nat :| k <= |line[i..e]| && OccursAt(line[i..e], token, k);
        assert line[i + k..i + k + |token|] == line[i..e][k..k + |token|];
        assert OccursAt(line, token, i + k);
        return true;
      }
      NotInSegment(line, token, i, e);
      i := e;
    }
    return false;
  }

  /** `ContainOneOfTokens`: the answer is one exactly when some word of the text occurs
      somewhere in the command line. */
  method ContainOneOfTokens(line: string, tokens: string) returns (r: int)
    requires HasNoNul(tokens)
    ensures r == 1 || r == 0
    ensures r == 1 <==> exists i: nat, j: nat :: FoundAt(line, tokens, i, j)
  {
    var found, i, j := NextToken(tokens, 0);
    ghost var from: nat := 0;
    while found
      invariant from <= |tokens| && (found ==> from <= i && TokenAt(tokens, i, j))
      invariant forall k: nat, l: nat | from <= k && TokenAt(tokens, k, l) :: found && ((k == i && l == j) || k > j)
      invariant forall k: nat, l: nat | k < from :: !FoundAt(line, tokens, k, l)
      decreases found, |tokens| - j
    {
      var contained := ContainsToken(line, tokens[i..j]);
      if contained {
        assert FoundAt(line, tokens, i, j);
        return 1;
      }
      from := j;
      found, i, j := NextToken(tokens, j);
    }
    return 0;
  }
}
