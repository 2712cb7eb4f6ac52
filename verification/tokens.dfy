/** input.Split(',', ' '): a line cut at every comma and every space, empty tokens kept;
    and the comma-joined form the writer produces. */
module Tokens {

  predicate IsSeparator(c: char) {
    c == ',' || c == ' '
  }

  predicate SeparatorFree(s: string) {
    forall i :: 0 <= i < |s| ==> !IsSeparator(s[i])
  }

  /** The separators of a line, in order. */
  function Separators(s: string): (seps: string)
    ensures forall i :: 0 <= i < |seps| ==> IsSeparator(seps[i])
  {
    if s == [] then [] else (if IsSeparator(s[0]) then [s[0]] else []) + Separators(s[1..])
  }

  /** The tokens with seps[i] between tokens i and i + 1. */
  function Interleave(tokens: seq<string>, seps: string): (s: string)
    requires |tokens| == |seps| + 1
  {
    if seps == [] then tokens[0] else tokens[0] + [seps[0]] + Interleave(tokens[1..], seps[1..])
  }

  /** Lengthening the first token lengthens the front of the interleaving by as much. */
  lemma InterleaveHead(a: string, tokens: seq<string>, seps: string)
    requires |tokens| == |seps| + 1
    ensures Interleave([a + tokens[0]] + tokens[1..], seps) == a + Interleave(tokens, seps)
  {
    var t := [a + tokens[0]] + tokens[1..];
    assert t[1..] == tokens[1..];
  }

  /** The tokens between separators, in order. Every separator ends one token, so two
      adjacent separators (or one at either end) yield an empty token. Put back between
      the tokens, the line's own separators give the line again. */
  function Split(s: string): (r: seq<string>)
    ensures |r| == |Separators(s)| + 1
    ensures forall i :: 0 <= i < |r| ==> SeparatorFree(r[i])
    ensures Interleave(r, Separators(s)) == s
  {
    if s == [] then [""]
    else
      var rest := Split(s[1..]);
      if IsSeparator(s[0]) then
        var r := [""] + rest;
        assert r[1..] == rest;
        r
      else
        assert Separators(s) == Separators(s[1..]);
        InterleaveHead([s[0]], rest, Separators(s[1..]));
        assert [s[0]] + s[1..] == s;
        [[s[0]] + rest[0]] + rest[1..]
  }

  /** The tokens with a comma between each two. */
  function Join(tokens: seq<string>): (s: string)
    requires |tokens| >= 1
  {
    if |tokens| == 1 then tokens[0] else tokens[0] + "," + Join(tokens[1..])
  }

  /** Splitting a line that starts with a separator-free run glues that run to the
      front of the first token of the remainder. */
  lemma {:induction false} SplitAfterRun(a: string, b: string)
    requires SeparatorFree(a)
    ensures Split(a + b) == [a + Split(b)[0]] + Split(b)[1..]
  {
    if a != [] {
      assert (a + b)[1..] == a[1..] + b;
      SplitAfterRun(a[1..], b);
      assert [a[0]] + (a[1..] + Split(b)[0]) == a + Split(b)[0];
    } else {
      assert a + b == b;
      assert a + Split(b)[0] == Split(b)[0];
      assert [Split(b)[0]] + Split(b)[1..] == Split(b);
    }
  }

  /** Appending a token to a join appends it after one more comma. */
  lemma {:induction false} JoinSnoc(tokens: seq<string>, t: string)
    requires |tokens| >= 1
    ensures Join(tokens + [t]) == Join(tokens) + "," + t
  {
    if |tokens| > 1 {
      assert (tokens + [t])[1..] == tokens[1..] + [t];
      JoinSnoc(tokens[1..], t);
    }
  }

  /** Splitting separator-free tokens put together with any separators, commas or spaces
      in any mix, gives the tokens back. */
  lemma {:induction false} SplitInterleave(tokens: seq<string>, seps: string)
    requires |tokens| == |seps| + 1
    requires forall i :: 0 <= i < |tokens| ==> SeparatorFree(tokens[i])
    requires forall i :: 0 <= i < |seps| ==> IsSeparator(seps[i])
    ensures Split(Interleave(tokens, seps)) == tokens
  {
    if seps == [] {
      SplitAfterRun(tokens[0], "");
      assert tokens[0] + "" == tokens[0];
    } else {
      var rest := Interleave(tokens[1..], seps[1..]);
      SplitInterleave(tokens[1..], seps[1..]);
      assert Interleave(tokens, seps) == tokens[0] + ([seps[0]] + rest);
      SplitAfterRun(tokens[0], [seps[0]] + rest);
      assert ([seps[0]] + rest)[1..] == rest;
      assert Split([seps[0]] + rest) == [""] + tokens[1..];
      assert tokens[0] + "" == tokens[0];
    }
  }

  /** A comma between each two tokens. */
  function Commas(n: nat): (s: string)
    ensures |s| == n && forall i :: 0 <= i < n ==> s[i] == ','
  {
    if n == 0 then [] else [','] + Commas(n - 1)
  }

  lemma {:induction false} JoinIsInterleave(tokens: seq<string>)
    requires |tokens| >= 1
    ensures Join(tokens) == Interleave(tokens, Commas(|tokens| - 1))
  {
    if |tokens| > 1 {
      JoinIsInterleave(tokens[1..]);
      assert Commas(|tokens| - 1)[1..] == Commas(|tokens| - 2);
    }
  }

  /** Splitting a comma-join of separator-free tokens gives the tokens back. */
  lemma SplitJoin(tokens: seq<string>)
    requires |tokens| >= 1
    requires forall i :: 0 <= i < |tokens| ==> SeparatorFree(tokens[i])
    ensures Split(Join(tokens)) == tokens
  {
    JoinIsInterleave(tokens);
    SplitInterleave(tokens, Commas(|tokens| - 1));
  }
}
