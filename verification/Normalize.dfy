/** The web service's normalize: re.sub(r"\s+", " ", message).strip() on a Python string. */
module Normalize {

  /** str.isspace, which \s and strip share. */
  predicate IsWhite(c: char) {
    var n := c as int;
    || 9 <= n <= 13 || 28 <= n <= 32 || n == 0x85 || n == 0xA0 || n == 0x1680
    || 0x2000 <= n <= 0x200A || n == 0x2028 || n == 0x2029 || n == 0x202F || n == 0x205F || n == 0x3000
  }

  function DropWhite(s: string): (r: string)
    ensures |r| <= |s|
    ensures r != "" ==> !IsWhite(r[0])
  {
    if s != "" && IsWhite(s[0]) then DropWhite(s[1..]) else s
  }

  /** re.sub(r"\s+", " ", s) */
  function Collapse(s: string): (r: string)
    ensures |r| <= |s|
    decreases |s|
  {
    if s == "" then ""
    else if IsWhite(s[0]) then " " + Collapse(DropWhite(s[1..]))
    else [s[0]] + Collapse(s[1..])
  }

  function RStrip(s: string): (r: string)
    ensures |r| <= |s|
  {
    if s != "" && IsWhite(s[|s| - 1]) then RStrip(s[..|s| - 1]) else s
  }

  /** s.strip() */
  function Strip(s: string): string {
    RStrip(DropWhite(s))
  }

  function Normal(s: string): string {
    Strip(Collapse(s))
  }

  // ------------------------------------------------------------ words

  function WordLength(s: string): (n: nat)
    ensures n <= |s|
    ensures forall i :: 0 <= i < n ==> !IsWhite(s[i])
    ensures n < |s| ==> IsWhite(s[n])
  {
    if s == "" || IsWhite(s[0]) then 0 else 1 + WordLength(s[1..])
  }

  /** The maximal runs of non-white characters. */
  function Words(s: string): seq<string>
    decreases |s|
  {
    var t := DropWhite(s);
    var n := WordLength(t);
    if t == "" then [] else [t[..n]] + Words(t[n..])
  }

  /** The words with one space between them. */
  function Join(ws: seq<string>): string {
    if ws == [] then "" else if |ws| == 1 then ws[0] else ws[0] + " " + Join(ws[1..])
  }

  predicate IsWord(w: string) {
    w != "" && forall i :: 0 <= i < |w| ==> !IsWhite(w[i])
  }

  predicate AllWords(ws: seq<string>) {
    forall i :: 0 <= i < |ws| ==> IsWord(ws[i])
  }

  // --------------------------------------- normalising joins the words

  lemma {:induction false} CollapseDrops(s: string)
    ensures DropWhite(Collapse(s)) == Collapse(DropWhite(s))
    decreases |s|
  {
    if s != "" && IsWhite(s[0]) {
      var t := DropWhite(s[1..]);
      assert Collapse(s)[1..] == Collapse(t);
      CollapseStart(t);
    } else {
      CollapseStart(s);
    }
  }

  lemma CollapseStart(t: string)
    requires t == "" || !IsWhite(t[0])
    ensures DropWhite(Collapse(t)) == Collapse(t)
    ensures t != "" ==> Collapse(t) != "" && Collapse(t)[0] == t[0]
  {
  }

  lemma {:induction false} CollapseWord(w: string, u: string)
    requires forall i :: 0 <= i < |w| ==> !IsWhite(w[i])
    ensures Collapse(w + u) == w + Collapse(u)
  {
    if w == "" {
      assert w + u == u;
    } else {
      assert (w + u)[1..] == w[1..] + u;
      CollapseWord(w[1..], u);
      assert [w[0]] + (w[1..] + Collapse(u)) == w + Collapse(u);
    }
  }

  lemma {:induction false} RStripTail(x: string, y: string)
    ensures RStrip(y) != "" ==> RStrip(x + y) == x + RStrip(y)
    ensures RStrip(y) == "" ==> RStrip(x + y) == RStrip(x)
  {
    if y == "" {
      assert x + y == x;
    } else if IsWhite(y[|y| - 1]) {
      RStripTail(x, y[..|y| - 1]);
      assert (x + y)[..|x + y| - 1] == x + y[..|y| - 1];
    }
  }

  lemma {:induction false} RStripKeepsStart(y: string)
    requires y != "" && !IsWhite(y[0])
    ensures RStrip(y) != "" && RStrip(y)[0] == y[0]
  {
    if IsWhite(y[|y| - 1]) {
      RStripKeepsStart(y[..|y| - 1]);
    }
  }

  /** One step of RStripJoins: a word, a space and a collapsed text c. */
  lemma RStripWord(w: string, c: string)
    requires IsWord(w)
    requires c == "" || !IsWhite(c[0])
    ensures c == "" ==> RStrip(w + (" " + c)) == w
    ensures c != "" ==> RStrip(w + (" " + c)) == w + " " + RStrip(c) && RStrip(c) != ""
  {
    assert w + (" " + c) == (w + " ") + c;
    RStripTail(w + " ", c);
    if c == "" {
      assert (w + " ")[..|w|] == w;
    } else {
      RStripKeepsStart(c);
    }
  }

  lemma WordsSplit(w: string, u: string)
    requires IsWord(w)
    requires u == "" || IsWhite(u[0])
    ensures Words(w + u) == [w] + Words(u)
    ensures Words("") == []
  {
    WordLengthOf(w, u);
    assert (w + u)[..|w|] == w && (w + u)[|w|..] == u;
  }

  lemma {:induction false} RStripJoins(t: string)
    requires t == "" || !IsWhite(t[0])
    ensures RStrip(Collapse(t)) == Join(Words(t))
    decreases |t|
  {
    if t != "" {
      var n := WordLength(t);
      var w, u := t[..n], t[n..];
      assert t == w + u && IsWord(w);
      CollapseWord(w, u);
      WordsSplit(w, u);
      if u != "" {
        var t2 := DropWhite(u[1..]);
        WordsOfDropped(u);
        CollapseStart(t2);
        RStripJoins(t2);
        RStripWord(w, Collapse(t2));
      } else {
        assert w + Collapse(u) == w;
      }
    }
  }

  lemma WordsOfDropped(u: string)
    requires u != "" && IsWhite(u[0])
    ensures Words(u) == Words(DropWhite(u[1..]))
  {
    var t := DropWhite(u[1..]);
    assert DropWhite(t) == t;
  }

  /** Normalising is joining the words with single spaces. */
  lemma NormalIsJoin(s: string)
    ensures Normal(s) == Join(Words(s))
  {
    CollapseDrops(s);
    RStripJoins(DropWhite(s));
    assert DropWhite(DropWhite(s)) == DropWhite(s);
  }

  lemma {:induction false} WordsAreWords(s: string)
    ensures AllWords(Words(s))
    decreases |s|
  {
    var t := DropWhite(s);
    if t != "" {
      WordsAreWords(t[WordLength(t)..]);
    }
  }

  lemma {:induction false} WordLengthOf(w: string, u: string)
    requires forall i :: 0 <= i < |w| ==> !IsWhite(w[i])
    requires u == "" || IsWhite(u[0])
    ensures WordLength(w + u) == |w|
  {
    if w == "" {
      assert w + u == u;
    } else {
      assert (w + u)[1..] == w[1..] + u;
      WordLengthOf(w[1..], u);
    }
  }

  lemma {:induction false} WordsOfJoin(ws: seq<string>)
    requires AllWords(ws)
    ensures Words(Join(ws)) == ws
  {
    if |ws| == 1 {
      assert ws[0] + "" == ws[0];
      WordLengthOf(ws[0], "");
      assert ws[0][..|ws[0]|] == ws[0] && ws[0][|ws[0]|..] == "";
      assert Words("") == [];
    } else if |ws| > 1 {
      var w, rest := ws[0], Join(ws[1..]);
      WordsOfJoin(ws[1..]);
      assert Join(ws) == w + (" " + rest);
      WordLengthOf(w, " " + rest);
      assert (w + (" " + rest))[..|w|] == w && (w + (" " + rest))[|w|..] == " " + rest;
      JoinStart(ws[1..]);
      assert (" " + rest)[1..] == rest;
      WordsOfDropped(" " + rest);
    }
  }

  lemma JoinStart(ws: seq<string>)
    requires AllWords(ws) && ws != []
    ensures Join(ws) != "" && !IsWhite(Join(ws)[0]) && DropWhite(Join(ws)) == Join(ws)
  {
    assert Join(ws)[0] == ws[0][0];
  }

  /** Two messages normalise to the same text if and only if their words are the same. */
  lemma NormalIsCanonical(a: string, b: string)
    ensures Normal(a) == Normal(b) <==> Words(a) == Words(b)
  {
    NormalIsJoin(a);
    NormalIsJoin(b);
    WordsAreWords(a);
    WordsAreWords(b);
    WordsOfJoin(Words(a));
    WordsOfJoin(Words(b));
  }

  lemma NormalIsIdempotent(s: string)
    ensures Normal(Normal(s)) == Normal(s)
  {
    NormalIsJoin(s);
    WordsAreWords(s);
    WordsOfJoin(Words(s));
    NormalIsJoin(Normal(s));
  }

  /** Every white character is a single space between two non-white ones. */
  predicate Tidy(s: string) {
    forall i :: 0 <= i < |s| && IsWhite(s[i]) ==>
      s[i] == ' ' && 0 < i < |s| - 1 && !IsWhite(s[i - 1]) && !IsWhite(s[i + 1])
  }

  lemma {:induction false} JoinIsTidy(ws: seq<string>)
    requires AllWords(ws)
    ensures Tidy(Join(ws))
  {
    if |ws| > 1 {
      var w, rest, s := ws[0], Join(ws[1..]), Join(ws);
      JoinIsTidy(ws[1..]);
      JoinStart(ws[1..]);
      assert s[..|w|] == w && s[|w|] == ' ' && s[|w| + 1..] == rest;
      assert forall i :: 0 <= i < |w| ==> s[i] == w[i];
      forall i | |w| <= i < |s| && IsWhite(s[i])
        ensures s[i] == ' ' && 0 < i < |s| - 1 && !IsWhite(s[i - 1]) && !IsWhite(s[i + 1])
      {
        if i == |w| {
          assert s[i - 1] == w[i - 1] && s[i + 1] == rest[0];
        } else {
          var j := i - |w| - 1;
          assert s[i] == rest[j] && rest[j - 1] == s[i - 1] && rest[j + 1] == s[i + 1];
        }
      }
    }
  }

  /** No leading, trailing or doubled white space, and never longer than the input. */
  lemma NormalIsTidy(s: string)
    ensures Tidy(Normal(s)) && |Normal(s)| <= |s|
  {
    NormalIsJoin(s);
    WordsAreWords(s);
    JoinIsTidy(Words(s));
  }
}
