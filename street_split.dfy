/**
 * The string operations both street heuristics are built from:
 * `street.Split(new[] {' '}, StringSplitOptions.RemoveEmptyEntries)` and
 * `string.Join(" ", tokens)`. Only the space character separates tokens;
 * tabs and other white space stay inside a token.
 */
module StreetSplit {
  import opened Common

  /** What the split can yield: a non-empty text without a space. */
  predicate IsToken(t: string) {
    |t| > 0 && forall i | 0 <= i < |t| :: t[i] != ' '
  }

  /** Length of the run of non-space characters at the start of `s`. */
  function TokenLength(s: string): (n: nat)
    ensures n <= |s|
    ensures forall i | 0 <= i < n :: s[i] != ' '
    ensures n == |s| || s[n] == ' '
  {
    if s == [] || s[0] == ' ' then 0 else 1 + TokenLength(s[1..])
  }

  /** `s.Split(' ', RemoveEmptyEntries)`: the maximal space-free runs of `s`, in order. */
  function Split(s: string): (tokens: seq<string>)
    ensures forall k | 0 <= k < |tokens| :: IsToken(tokens[k])
    decreases |s|
  {
    if s == [] then []
    else if s[0] == ' ' then Split(s[1..])
    else
      var n := TokenLength(s);
      [s[..n]] + Split(s[n..])
  }

  /** `string.Join(" ", tokens)`. */
  function Join(tokens: seq<string>): string {
    JoinWith(" ", tokens)
  }

  /** Text with no leading, trailing or doubled space: the form Join gives. */
  predicate Collapsed(s: string) {
    forall i | 0 <= i < |s| && s[i] == ' ' :: 0 < i < |s| - 1 && s[i + 1] != ' '
  }

  /** The text with every space dropped. */
  function RemoveSpaces(s: string): (r: string)
    ensures ' ' !in r
  {
    if s == [] then [] else (if s[0] == ' ' then [] else [s[0]]) + RemoveSpaces(s[1..])
  }

  function Concat(parts: seq<string>): string {
    if parts == [] then [] else parts[0] + Concat(parts[1..])
  }

  lemma {:induction false} TokenLengthOfToken(t: string, rest: string)
    requires IsToken(t) && (rest == [] || rest[0] == ' ')
    ensures TokenLength(t + rest) == |t|
    decreases |t|
  {
    var s := t + rest;
    assert s[0] == t[0];
    if |t| > 1 {
      assert s[1..] == t[1..] + rest;
      TokenLengthOfToken(t[1..], rest);
    } else {
      assert s[1..] == rest;
    }
  }

  /** A token followed by a space (or nothing) is split off whole. */
  lemma SplitAfterToken(t: string, rest: string)
    requires IsToken(t) && (rest == [] || rest[0] == ' ')
    ensures Split(t + rest) == [t] + Split(rest)
  {
    var s := t + rest;
    TokenLengthOfToken(t, rest);
    assert s[0] == t[0];
    assert s[..|t|] == t;
    assert s[|t|..] == rest;
  }

  /** Splitting what Join produced gives the tokens back. */
  lemma {:induction false} SplitJoin(tokens: seq<string>)
    requires forall k | 0 <= k < |tokens| :: IsToken(tokens[k])
    ensures Split(Join(tokens)) == tokens
  {
    if |tokens| == 1 {
      SplitAfterToken(tokens[0], []);
      assert tokens[0] + [] == tokens[0];
    } else if |tokens| > 1 {
      var rest := Join(tokens[1..]);
      assert Join(tokens) == tokens[0] + (" " + rest);
      SplitAfterToken(tokens[0], " " + rest);
      assert (" " + rest)[1..] == rest;
      SplitJoin(tokens[1..]);
    }
  }

  lemma JoinStartsWithToken(tokens: seq<string>)
    requires |tokens| > 0 && forall k | 0 <= k < |tokens| :: IsToken(tokens[k])
    ensures |Join(tokens)| > 0 && Join(tokens)[0] != ' '
  {
    if |tokens| > 1 {
      assert Join(tokens) == tokens[0] + " " + Join(tokens[1..]);
    }
  }

  /** Join never produces a leading, trailing or doubled space. */
  lemma {:induction false} JoinIsCollapsed(tokens: seq<string>)
    requires forall k | 0 <= k < |tokens| :: IsToken(tokens[k])
    ensures Collapsed(Join(tokens))
  {
    if |tokens| > 1 {
      var t, rest := tokens[0], Join(tokens[1..]);
      JoinIsCollapsed(tokens[1..]);
      JoinStartsWithToken(tokens[1..]);
      var j := Join(tokens);
      assert j == t + " " + rest;
      forall i | 0 <= i < |t| ensures j[i] != ' ' {
        assert j[i] == t[i];
      }
      forall i | 0 <= i < |j| && j[i] == ' '
        ensures 0 < i < |j| - 1 && j[i + 1] != ' '
      {
        if i == |t| {
          assert j[i + 1] == rest[0];
        } else {
          assert j[i] == rest[i - |t| - 1];
          assert j[i + 1] == rest[i - |t|];
        }
      }
    }
  }

  lemma RemoveSpacesAppend(a: string, b: string)
    ensures RemoveSpaces(a + b) == RemoveSpaces(a) + RemoveSpaces(b)
  {
    if a == [] {
      assert a + b == b;
    } else {
      assert (a + b)[0] == a[0];
      assert (a + b)[1..] == a[1..] + b;
      RemoveSpacesAppend(a[1..], b);
    }
  }

  lemma RemoveSpacesOfToken(t: string)
    requires forall i | 0 <= i < |t| :: t[i] != ' '
    ensures RemoveSpaces(t) == t
  {
    if t != [] {
      RemoveSpacesOfToken(t[1..]);
    }
  }

  /** Splitting loses exactly the spaces. */
  lemma {:induction false} SplitKeepsText(s: string)
    ensures Concat(Split(s)) == RemoveSpaces(s)
    decreases |s|
  {
    if s != [] {
      if s[0] == ' ' {
        SplitKeepsText(s[1..]);
      } else {
        var n := TokenLength(s);
        SplitKeepsText(s[n..]);
        assert s == s[..n] + s[n..];
        RemoveSpacesAppend(s[..n], s[n..]);
        RemoveSpacesOfToken(s[..n]);
      }
    }
  }

  /** Joining with spaces adds exactly the spaces. */
  lemma {:induction false} JoinKeepsText(tokens: seq<string>)
    requires forall k | 0 <= k < |tokens| :: IsToken(tokens[k])
    ensures RemoveSpaces(Join(tokens)) == Concat(tokens)
  {
    if |tokens| == 1 {
      RemoveSpacesOfToken(tokens[0]);
      assert Concat(tokens) == tokens[0] + Concat([]);
    } else if |tokens| > 1 {
      var t, rest := tokens[0], Join(tokens[1..]);
      assert Join(tokens) == t + (" " + rest);
      JoinKeepsText(tokens[1..]);
      RemoveSpacesAroundSeparator(t, rest);
    }
  }

  /** A space between a token and the rest disappears, and the token stays whole. */
  lemma RemoveSpacesAroundSeparator(t: string, rest: string)
    requires IsToken(t)
    ensures RemoveSpaces(t + (" " + rest)) == t + RemoveSpaces(rest)
  {
    var spaced := " " + rest;
    assert RemoveSpaces(spaced) == RemoveSpaces(rest) by {
      assert spaced[0] == ' ' && spaced[1..] == rest;
    }
    RemoveSpacesAppend(t, spaced);
    RemoveSpacesOfToken(t);
  }

  lemma CollapsedTail(s: string, n: nat)
    requires Collapsed(s) && n < |s| && s[n] == ' '
    ensures Collapsed(s[n + 1..]) && |s[n + 1..]| > 0 && s[n + 1] != ' '
  {
    var r := s[n + 1..];
    forall i | 0 <= i < |r| && r[i] == ' '
      ensures 0 < i < |r| - 1 && r[i + 1] != ' '
    {
      assert s[n + 1 + i] == ' ';
      assert s[n + 1 + i - 1] != ' ' || n + 1 + i - 1 == n;
    }
  }

  /** A token that ends at a single space, followed by a token. */
  lemma SplitAtSeparator(s: string, n: nat)
    requires s != [] && s[0] != ' ' && n == TokenLength(s) && n < |s|
    requires s[n + 1..] != [] && s[n + 1] != ' '
    ensures Split(s) == [s[..n]] + Split(s[n + 1..])
    ensures Split(s[n + 1..]) != []
  {
    var rest := s[n + 1..];
    assert s[n..][1..] == rest;
    assert Split(s[n..]) == Split(rest);
    assert Split(rest) == [rest[..TokenLength(rest)]] + Split(rest[TokenLength(rest)..]);
  }

  /** Joining gives back a token, one space and a tail that joining already gives back. */
  lemma JoinSplitAtSeparator(s: string, n: nat)
    requires s != [] && s[0] != ' ' && n == TokenLength(s) && n < |s|
    requires s[n + 1..] != [] && s[n + 1] != ' '
    requires Join(Split(s[n + 1..])) == s[n + 1..]
    ensures Join(Split(s)) == s
  {
    SplitAtSeparator(s, n);
    JoinCons(s[..n], Split(s[n + 1..]));
    AroundSpace(s, n);
  }

  lemma JoinCons(t: string, tokens: seq<string>)
    requires tokens != []
    ensures Join([t] + tokens) == t + " " + Join(tokens)
  {
    assert ([t] + tokens)[1..] == tokens;
  }

  lemma AroundSpace(s: string, n: nat)
    requires n < |s| && s[n] == ' '
    ensures s == s[..n] + " " + s[n + 1..]
  {
  }

  /** A text already in collapsed form is what Join rebuilds from its tokens. */
  lemma {:induction false} JoinSplitOfCollapsed(s: string)
    requires Collapsed(s)
    ensures Join(Split(s)) == s
    decreases |s|
  {
    if s != [] {
      assert s[0] != ' ';
      var n := TokenLength(s);
      var t := s[..n];
      if n == |s| {
        assert s[n..] == [];
        assert Split(s) == [t];
      } else {
        CollapsedTail(s, n);
        JoinSplitOfCollapsed(s[n + 1..]);
        JoinSplitAtSeparator(s, n);
      }
    }
  }

  /**
   * `Join(Split(s))` is the input trimmed of spaces with every run of spaces
   * collapsed to one: it has the same tokens, it is collapsed, and it is
   * the only collapsed text with those tokens.
   */
  lemma JoinSplitNormalises(s: string, c: string)
    ensures Split(Join(Split(s))) == Split(s)
    ensures Collapsed(Join(Split(s)))
    ensures RemoveSpaces(Join(Split(s))) == RemoveSpaces(s)
    ensures Collapsed(c) && Split(c) == Split(s) ==> c == Join(Split(s))
  {
    SplitJoin(Split(s));
    JoinIsCollapsed(Split(s));
    JoinKeepsText(Split(s));
    SplitKeepsText(s);
    if Collapsed(c) && Split(c) == Split(s) {
      JoinSplitOfCollapsed(c);
    }
  }

  /** A tab does not separate tokens; runs of spaces do, and vanish. */
  lemma TabIsNotASeparator()
    ensures Split("a\tb") == ["a\tb"]
    ensures Split(" a  b") == ["a", "b"]
  {
    SplitAfterToken("a\tb", []);
    assert "a\tb" + [] == "a\tb";
    var s := " a  b";
    assert s[0] == ' ' && s[1..] == "a" + "  b";
    SplitAfterToken("a", "  b");
    var r := "  b";
    assert r[0] == ' ' && r[1..] == " b";
    assert r[1..][0] == ' ' && r[1..][1..] == "b";
    assert Split(r) == Split("b");
    SplitAfterToken("b", []);
    assert "b" + [] == "b";
  }
}
