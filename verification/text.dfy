/**
 * The string operations the line-oriented input path relies on, with Python's
 * semantics: `str.strip()`, `str.split()` (no argument: runs of whitespace) and
 * `str.split(sep)` for a one-character separator.
 */
module Text {
  import opened Sequences

  /** Python's `str.isspace()` on a single character. */
  predicate IsSpace(c: char) {
    || c == ' '
    || ('\t' <= c <= '\r')
    || ('\U{1C}' <= c <= '\U{1F}')
    || c == '\U{85}' || c == '\U{A0}' || c == '\U{1680}'
    || ('\U{2000}' <= c <= '\U{200A}')
    || c == '\U{2028}' || c == '\U{2029}' || c == '\U{202F}' || c == '\U{205F}' || c == '\U{3000}'
  }

  /** Every character of `s` is whitespace (vacuously true of the empty string). */
  predicate AllSpace(s: string) {
    forall i :: 0 <= i < |s| ==> IsSpace(s[i])
  }

  /** A word in the sense of `str.split()`: non-empty and free of whitespace. */
  predicate IsWord(w: string) {
    w != [] && forall i :: 0 <= i < |w| ==> !IsSpace(w[i])
  }

  /** `s` with its leading whitespace removed (`str.lstrip()`). */
  function TrimStart(s: string): (r: string)
    ensures |r| <= |s| && r == s[|s| - |r|..]
    ensures AllSpace(s[..|s| - |r|])
    ensures r == [] || !IsSpace(r[0])
    decreases |s|
  {
    if s != [] && IsSpace(s[0]) then TrimStart(s[1..]) else s
  }

  /** `s` with its trailing whitespace removed (`str.rstrip()`). */
  function TrimEnd(s: string): (r: string)
    ensures |r| <= |s| && r == s[..|r|]
    ensures AllSpace(s[|r|..])
    ensures r == [] || !IsSpace(r[|r| - 1])
    decreases |s|
  {
    if s != [] && IsSpace(s[|s| - 1]) then
      var r := TrimEnd(s[..|s| - 1]);
      assert s[|r|..] == s[..|s| - 1][|r|..] + [s[|s| - 1]];
      r
    else
      s
  }

  /** Python's `str.strip()`. */
  function Strip(s: string): string {
    TrimEnd(TrimStart(s))
  }

  /** The length of the longest whitespace-free prefix of `s`. */
  function WordEnd(s: string): (n: nat)
    ensures n <= |s|
    ensures forall i :: 0 <= i < n ==> !IsSpace(s[i])
    ensures n == |s| || IsSpace(s[n])
    decreases |s|
  {
    if s == [] || IsSpace(s[0]) then 0 else 1 + WordEnd(s[1..])
  }

  /** Python's `str.split()` without arguments: the maximal runs of non-whitespace, in order. */
  function Tokens(s: string): (ws: seq<string>)
    ensures forall k :: 0 <= k < |ws| ==> IsWord(ws[k])
    decreases |s|
  {
    var t := TrimStart(s);
    if t == [] then []
    else
      var n := WordEnd(t);
      FirstWord(t);
      var rest := Tokens(t[n..]);
      WordsCons(t[..n], rest);
      [t[..n]] + rest
  }

  /** A string that starts with a non-space character starts with a word. */
  lemma FirstWord(t: string)
    requires t != [] && !IsSpace(t[0])
    ensures WordEnd(t) > 0 && IsWord(t[..WordEnd(t)])
  {
    var n := WordEnd(t);
    assert forall i :: 0 <= i < n ==> t[..n][i] == t[i];
  }

  /** A word in front of a sequence of words gives a sequence of words. */
  lemma WordsCons(w: string, rest: seq<string>)
    requires IsWord(w)
    requires forall k :: 0 <= k < |rest| ==> IsWord(rest[k])
    ensures forall k :: 0 <= k < |[w] + rest| ==> IsWord(([w] + rest)[k])
  {
    forall k | 0 <= k < |[w] + rest|
      ensures IsWord(([w] + rest)[k])
    {
      if k > 0 {
        assert ([w] + rest)[k] == rest[k - 1];
      }
    }
  }

  /** The position of the first `d` in `s`; `s` must contain `d`. */
  function FirstIndex(s: string, d: char): (k: nat)
    requires d in s
    ensures k < |s| && s[k] == d && d !in s[..k]
    decreases |s|
  {
    if s[0] == d then 0 else 1 + FirstIndex(s[1..], d)
  }

  /** Python's `s.split(d)` for one separator character: the pieces between separators, empty ones included. */
  function Split(s: string, d: char): (parts: seq<string>)
    ensures |parts| >= 1
    decreases |s|
  {
    if d !in s then [s]
    else
      var k := FirstIndex(s, d);
      [s[..k]] + Split(s[k + 1..], d)
  }

  /** Python's `sep.join(parts)`. */
  function Join(parts: seq<string>, sep: string): string
    decreases |parts|
  {
    if parts == [] then []
    else if |parts| == 1 then parts[0]
    else parts[0] + sep + Join(parts[1..], sep)
  }

  /** `seps` fits between consecutive words of `ws`: one non-empty run of whitespace per gap. */
  predicate Separates(seps: seq<string>, ws: seq<string>) {
    && (if ws == [] then seps == [] else |seps| == |ws| - 1)
    && forall k :: 0 <= k < |seps| ==> seps[k] != [] && AllSpace(seps[k])
  }

  /** The words of `ws` with the runs of `seps` between them: `ws[0] + seps[0] + ws[1] + ...`. */
  function Spaced(ws: seq<string>, seps: seq<string>): string
    requires Separates(seps, ws)
    decreases |ws|
  {
    if ws == [] then []
    else if |ws| == 1 then ws[0]
    else ws[0] + (seps[0] + Spaced(ws[1..], seps[1..]))
  }

  // ---------------------------------------------------------------------------
  // Stripping and tokenising

  /** `lstrip` is idempotent: trimming a string that starts with a non-space changes nothing. */
  lemma TrimStartIdempotent(s: string)
    ensures TrimStart(TrimStart(s)) == TrimStart(s)
  {
  }

  /** A string is stripped to nothing exactly when it is all whitespace. */
  lemma TrimStartEmpty(s: string)
    ensures TrimStart(s) == [] <==> AllSpace(s)
  {
    var r := TrimStart(s);
    if r == [] {
      assert s[..|s|] == s;
    } else if AllSpace(s) {
      assert false;
    }
  }

  /** Trimming leading whitespace of `x + y` only touches `x` when `x` has a non-space character. */
  lemma {:induction false} TrimStartAppend(x: string, y: string)
    requires TrimStart(x) != []
    ensures TrimStart(x + y) == TrimStart(x) + y
    decreases |x|
  {
    assert (x + y)[0] == x[0];
    if IsSpace(x[0]) {
      assert (x + y)[1..] == x[1..] + y;
      TrimStartAppend(x[1..], y);
    }
  }

  /** A whitespace-free prefix of length `k` followed by whitespace or the end is exactly `WordEnd`. */
  lemma WordEndUnique(s: string, k: nat)
    requires k <= |s|
    requires forall i :: 0 <= i < k ==> !IsSpace(s[i])
    requires k == |s| || IsSpace(s[k])
    ensures WordEnd(s) == k
  {
  }

  /** Leading whitespace never changes the tokens. */
  lemma TokensTrimStart(s: string)
    ensures Tokens(TrimStart(s)) == Tokens(s)
  {
    TrimStartIdempotent(s);
  }

  /** The first token of a string that starts with a non-space character, and the rest. */
  lemma TokensHead(t: string)
    requires t != [] && !IsSpace(t[0])
    ensures Tokens(t) == [t[..WordEnd(t)]] + Tokens(t[WordEnd(t)..])
  {
  }

  /** Appending whitespace to a string that starts with a word leaves that word first. */
  lemma TokensHeadAppend(t: string, sp: string)
    requires t != [] && !IsSpace(t[0])
    requires AllSpace(sp)
    ensures Tokens(t + sp) == [t[..WordEnd(t)]] + Tokens(t[WordEnd(t)..] + sp)
  {
    var n := WordEnd(t);
    var u := t + sp;
    calc {
      Tokens(u);
    == { assert u[0] == t[0]; TokensHead(u); }
      [u[..WordEnd(u)]] + Tokens(u[WordEnd(u)..]);
    == { WordEndUnique(u, n); }
      [u[..n]] + Tokens(u[n..]);
    == { assert u[..n] == t[..n]; assert u[n..] == t[n..] + sp; }
      [t[..n]] + Tokens(t[n..] + sp);
    }
  }

  /** Trailing whitespace never changes the tokens. */
  lemma {:induction false} TokensTrailingSpace(x: string, sp: string)
    requires AllSpace(sp)
    ensures Tokens(x + sp) == Tokens(x)
    decreases |x|
  {
    var t := TrimStart(x);
    if t == [] {
      TrimStartEmpty(x);
      assert AllSpace(x + sp);
      TrimStartEmpty(x + sp);
    } else {
      TrimStartAppend(x, sp);
      TokensTrimStart(x + sp);
      TokensTrimStart(x);
      TokensHeadAppend(t, sp);
      TokensHead(t);
      TokensTrailingSpace(t[WordEnd(t)..], sp);
    }
  }

  /** Whitespace around a string never changes its tokens. */
  lemma TokensIgnorePadding(pre: string, x: string, post: string)
    requires AllSpace(pre) && AllSpace(post)
    ensures Tokens(pre + x + post) == Tokens(x)
  {
    calc {
      Tokens(pre + x + post);
    == { AppendAssoc(pre, x, post); }
      Tokens(pre + (x + post));
    == { TokensLeadingSpace(pre, x + post); }
      Tokens(x + post);
    == { TokensTrailingSpace(x, post); }
      Tokens(x);
    }
  }

  /** `line.strip().split()` has the same tokens as `line.split()`. */
  lemma TokensIgnoreStrip(s: string)
    ensures Tokens(Strip(s)) == Tokens(s)
  {
    var t := TrimStart(s);
    var e := TrimEnd(t);
    Reassemble(t, |e|);
    TokensTrailingSpace(e, t[|e|..]);
    TokensTrimStart(s);
  }

  /** `line.strip()` is empty exactly when the line has no tokens, exactly when it is all whitespace. */
  lemma BlankIffNoTokens(s: string)
    ensures Strip(s) == [] <==> Tokens(s) == []
    ensures Tokens(s) == [] <==> AllSpace(s)
  {
    TrimStartEmpty(s);
    var t := TrimStart(s);
    if t != [] {
      assert TrimEnd(t)[0] == t[0];
    }
  }

  /** Leading whitespace is skipped by `lstrip`, whatever follows it. */
  lemma {:induction false} TrimStartSpacePrefix(pre: string, s: string)
    requires AllSpace(pre)
    ensures TrimStart(pre + s) == TrimStart(s)
    decreases |pre|
  {
    if pre == [] {
      assert pre + s == s;
    } else {
      assert (pre + s)[0] == pre[0];
      assert (pre + s)[1..] == pre[1..] + s;
      TrimStartSpacePrefix(pre[1..], s);
    }
  }

  /** Leading whitespace never changes the tokens. */
  lemma TokensLeadingSpace(pre: string, s: string)
    requires AllSpace(pre)
    ensures Tokens(pre + s) == Tokens(s)
  {
    TrimStartSpacePrefix(pre, s);
    TokensTrimStart(pre + s);
    TokensTrimStart(s);
  }

  /** A word followed by nothing or by a whitespace-led rest is the first token. */
  lemma TokensWordThen(w: string, rest: string)
    requires IsWord(w)
    requires rest == [] || IsSpace(rest[0])
    ensures Tokens(w + rest) == [w] + Tokens(rest)
  {
    var s := w + rest;
    calc {
      Tokens(s);
    == { assert s[0] == w[0]; TokensHead(s); }
      [s[..WordEnd(s)]] + Tokens(s[WordEnd(s)..]);
    == { WordEndUnique(s, |w|); }
      [s[..|w|]] + Tokens(s[|w|..]);
    == { assert s[..|w|] == w; assert s[|w|..] == rest; }
      [w] + Tokens(rest);
    }
  }

  /** Joining at least two parts puts the first part, then the separator, before the rest. */
  lemma JoinCons(parts: seq<string>, sep: string)
    requires |parts| > 1
    ensures Join(parts, sep) == parts[0] + (sep + Join(parts[1..], sep))
  {
  }

  /** Tokenising a space-joined list of words gives back the words. */
  lemma TokensOfJoin(ws: seq<string>)
    requires forall k :: 0 <= k < |ws| ==> IsWord(ws[k])
    ensures Tokens(Join(ws, " ")) == ws
  {
    var seps := SingleSpaces(ws);
    JoinIsSpaced(ws);
    TokensOfSpaced(ws, seps);
  }

  /** One `" "` per gap between the words of `ws`. */
  function SingleSpaces(ws: seq<string>): (seps: seq<string>)
    ensures Separates(seps, ws)
  {
    seq(if ws == [] then 0 else |ws| - 1, _ => " ")
  }

  /** Joining with a single space is spacing the words with one `" "` per gap. */
  lemma {:induction false} JoinIsSpaced(ws: seq<string>)
    ensures Join(ws, " ") == Spaced(ws, SingleSpaces(ws))
    decreases |ws|
  {
    if |ws| > 1 {
      var seps := SingleSpaces(ws);
      assert seps[1..] == SingleSpaces(ws[1..]);
      JoinIsSpaced(ws[1..]);
      AppendAssoc(ws[0], " ", Join(ws[1..], " "));
    }
  }

  /** A single word is its own only token. */
  lemma TokensOfWord(w: string)
    requires IsWord(w)
    ensures Tokens(w) == [w]
  {
    TokensWordThen(w, []);
    assert w + [] == w;
  }

  /** A word, a run of whitespace and a rest: the word is the first token, followed by the tokens of the rest. */
  lemma TokensWordSepThen(w: string, sep: string, rest: string)
    requires IsWord(w) && sep != [] && AllSpace(sep)
    ensures Tokens(w + (sep + rest)) == [w] + Tokens(rest)
  {
    calc {
      Tokens(w + (sep + rest));
    == { assert (sep + rest)[0] == sep[0]; TokensWordThen(w, sep + rest); }
      [w] + Tokens(sep + rest);
    == { TokensLeadingSpace(sep, rest); }
      [w] + Tokens(rest);
    }
  }

  /** Tokenising words separated by any non-empty runs of whitespace gives back the words. */
  lemma {:induction false} TokensOfSpaced(ws: seq<string>, seps: seq<string>)
    requires forall k :: 0 <= k < |ws| ==> IsWord(ws[k])
    requires Separates(seps, ws)
    ensures Tokens(Spaced(ws, seps)) == ws
    decreases |ws|
  {
    if |ws| == 1 {
      TokensOfWord(ws[0]);
      assert ws == [ws[0]];
    } else if ws != [] {
      var rest := Spaced(ws[1..], seps[1..]);
      calc {
        Tokens(Spaced(ws, seps));
      ==
        Tokens(ws[0] + (seps[0] + rest));
      == { TokensWordSepThen(ws[0], seps[0], rest); }
        [ws[0]] + Tokens(rest);
      == { TokensOfSpaced(ws[1..], seps[1..]); }
        [ws[0]] + ws[1..];
      == { HeadTail(ws); }
        ws;
      }
    }
  }

  // ---------------------------------------------------------------------------
  // Splitting on a separator character

  /** No piece of `s.split(d)` contains `d`. */
  lemma {:induction false} SplitPiecesFree(s: string, d: char)
    ensures forall k :: 0 <= k < |Split(s, d)| ==> d !in Split(s, d)[k]
    decreases |s|
  {
    if d in s {
      var k := FirstIndex(s, d);
      SplitPiecesFree(s[k + 1..], d);
      var rest := Split(s[k + 1..], d);
      forall j | 0 <= j < |Split(s, d)|
        ensures d !in Split(s, d)[j]
      {
        if j > 0 {
          assert Split(s, d)[j] == rest[j - 1];
        }
      }
    }
  }

  /** Joining the pieces of `s.split(d)` with `d` gives back `s`. */
  lemma {:induction false} JoinSplit(s: string, d: char)
    ensures Join(Split(s, d), [d]) == s
    decreases |s|
  {
    if d in s {
      var k := FirstIndex(s, d);
      var rest := Split(s[k + 1..], d);
      calc {
        Join(Split(s, d), [d]);
      == { JoinCons([s[..k]] + rest, [d]); ConsParts(s[..k], rest); }
        s[..k] + ([d] + Join(rest, [d]));
      == { JoinSplit(s[k + 1..], d); }
        s[..k] + ([d] + s[k + 1..]);
      == { CutAt(s, k); }
        s;
      }
    }
  }

  /** Splitting a `d`-joined list of `d`-free pieces gives back the pieces. */
  lemma {:induction false} SplitJoin(parts: seq<string>, d: char)
    requires parts != []
    requires forall k :: 0 <= k < |parts| ==> d !in parts[k]
    ensures Split(Join(parts, [d]), d) == parts
    decreases |parts|
  {
    if |parts| > 1 {
      JoinCons(parts, [d]);
      SplitAround(Join(parts, [d]), parts[0], Join(parts[1..], [d]), d);
      SplitJoin(parts[1..], d);
      HeadTail(parts);
    }
  }

  /** The first occurrence is the only position holding `d` with no `d` before it. */
  lemma FirstIndexUnique(s: string, d: char, k: nat)
    requires k < |s| && s[k] == d && d !in s[..k]
    ensures FirstIndex(s, d) == k
  {
  }

  /** A leading separator splits off an empty first piece. */
  lemma SplitConsSeparator(s: string, d: char)
    ensures Split([d] + s, d) == [[]] + Split(s, d)
  {
    SplitAround([d] + s, [], s, d);
  }

  /** A leading non-separator character joins the first piece. */
  lemma SplitConsOther(c: char, s: string, d: char)
    requires c != d
    ensures Split([c] + s, d) == [[c] + Split(s, d)[0]] + Split(s, d)[1..]
  {
    if d in s {
      var k := FirstIndex(s, d);
      CutAt(s, k);
      AppendAssoc([c], s[..k], [d] + s[k + 1..]);
      SplitAround([c] + s, [c] + s[..k], s[k + 1..], d);
      SplitAtFirst(s, d, k);
    } else {
      assert d !in [c] + s;
    }
  }

  /** A character appended after a separator does not move the first separator, at `k`. */
  lemma SplitSnocFirst(s: string, c: char, d: char, k: nat)
    requires d in s && k == FirstIndex(s, d)
    ensures Split(s + [c], d) == [s[..k]] + Split(s[k + 1..] + [c], d)
  {
    SnocAround(s, k, d, c);
    SplitAround(s + [c], s[..k], s[k + 1..] + [c], d);
  }

  /** The first piece of `s.split(d)` ends at the first separator, at `k`, and the split of the rest follows. */
  lemma SplitAtFirst(s: string, d: char, k: nat)
    requires d in s && k == FirstIndex(s, d)
    ensures Split(s, d) == [s[..k]] + Split(s[k + 1..], d)
  {
    CutAt(s, k);
    SplitAround(s, s[..k], s[k + 1..], d);
  }

  /** A separator-free head, a separator and a tail: the head is the first piece, and the tail's pieces follow. */
  lemma SplitAround(u: string, head: string, tail: string, d: char)
    requires u == head + ([d] + tail) && d !in head
    ensures Split(u, d) == [head] + Split(tail, d)
  {
    assert u[..|head|] == head;
    assert u[|head| + 1..] == tail;
    FirstIndexUnique(u, d, |head|);
  }

  /** A trailing separator adds an empty last piece. */
  lemma {:induction false} SplitSnocSeparator(s: string, d: char)
    ensures Split(s + [d], d) == Split(s, d) + [[]]
    decreases |s|
  {
    var sc := s + [d];
    if d in s {
      var k := FirstIndex(s, d);
      calc {
        Split(sc, d);
      == { SplitSnocFirst(s, d, d, k); }
        [s[..k]] + Split(s[k + 1..] + [d], d);
      == { SplitSnocSeparator(s[k + 1..], d); }
        [s[..k]] + (Split(s[k + 1..], d) + [[]]);
      == { AppendAssoc([s[..k]], Split(s[k + 1..], d), [[]]); SplitAtFirst(s, d, k); }
        Split(s, d) + [[]];
      }
    } else {
      SplitSnocOnlySeparator(s, d);
    }
  }

  /** A separator appended to a string without one cuts it into itself and an empty piece. */
  lemma SplitSnocOnlySeparator(s: string, d: char)
    requires d !in s
    ensures Split(s + [d], d) == [s, []]
  {
    var sc := s + [d];
    assert sc[..|s|] == s;
    FirstIndexUnique(sc, d, |s|);
    assert sc[|s| + 1..] == [];
  }

  /** The pieces with `c` appended to the last one. */
  function GrowLast(parts: seq<string>, c: char): (r: seq<string>)
    requires parts != []
    ensures |r| == |parts| && r[..|r| - 1] == parts[..|parts| - 1]
    ensures r[|r| - 1] == parts[|parts| - 1] + [c]
  {
    parts[..|parts| - 1] + [parts[|parts| - 1] + [c]]
  }

  /** A trailing non-separator character joins the last piece. */
  lemma {:induction false} SplitSnocOther(s: string, c: char, d: char)
    requires c != d
    ensures Split(s + [c], d) == GrowLast(Split(s, d), c)
    decreases |s|
  {
    if d in s {
      var k := FirstIndex(s, d);
      var tail := Split(s[k + 1..], d);
      calc {
        Split(s + [c], d);
      == { SplitSnocFirst(s, c, d, k); }
        [s[..k]] + Split(s[k + 1..] + [c], d);
      == { SplitSnocOther(s[k + 1..], c, d); }
        [s[..k]] + GrowLast(tail, c);
      == { GrowLastCons(s[..k], tail, c); }
        GrowLast([s[..k]] + tail, c);
      == { SplitAtFirst(s, d, k); }
        GrowLast(Split(s, d), c);
      }
    } else {
      SplitSnocNoSeparator(s, c, d);
    }
  }

  /** Without a separator the string is its only piece, and the character joins it. */
  lemma SplitSnocNoSeparator(s: string, c: char, d: char)
    requires c != d && d !in s
    ensures Split(s + [c], d) == GrowLast(Split(s, d), c)
  {
    assert d !in s + [c];
    assert Split(s + [c], d) == [s + [c]];
    assert Split(s, d) == [s];
    assert GrowLast([s], c) == [s + [c]];
  }

  /** Growing the last piece commutes with putting a piece in front. */
  lemma GrowLastCons(p: string, tail: seq<string>, c: char)
    requires tail != []
    ensures [p] + GrowLast(tail, c) == GrowLast([p] + tail, c)
  {
    var n := |tail|;
    AppendAssoc([p], tail[..n - 1], [tail[n - 1] + [c]]);
    ConsInitLast(p, tail);
  }

  /** Words joined by single spaces contain no line break. */
  lemma {:induction false} NoNewlineInJoin(ws: seq<string>)
    requires forall k :: 0 <= k < |ws| ==> IsWord(ws[k])
    ensures '\n' !in Join(ws, " ")
    decreases |ws|
  {
    assert IsSpace('\n');
    if |ws| == 1 {
      assert '\n' !in ws[0];
    } else if |ws| > 1 {
      NoNewlineInJoin(ws[1..]);
      assert '\n' !in ws[0];
      assert Join(ws, " ") == ws[0] + " " + Join(ws[1..], " ");
    }
  }
}
