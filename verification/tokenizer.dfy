/**
 The whitespace tokenizer of myshell: a line is copied word by word through an
 `istream_iterator<std::string>` into a vector. Extraction of a string skips
 leading white space and then reads characters up to the next white space, so
 the tokens are the maximal runs of non-white-space characters, in order.
 White space is that of the classic "C" locale.
 */
module Tokenizer {

  /** `isspace` in the "C" locale: space, tab, newline, vertical tab, form feed, carriage return. */
  predicate IsSpace(c: char) {
    c == ' ' || c == '\t' || c == '\n' || c == '\U{000B}' || c == '\U{000C}' || c == '\r'
  }

  /** A well-formed token: non-empty and free of white space. */
  predicate IsWord(w: string) {
    w != [] && forall k :: 0 <= k < |w| ==> !IsSpace(w[k])
  }

  /** The longest prefix of `s` that holds no white space. */
  function LeadingWord(s: string): (w: string)
    ensures |w| <= |s| && w == s[..|w|]
    ensures forall k :: 0 <= k < |w| ==> !IsSpace(w[k])
    ensures |w| < |s| ==> IsSpace(s[|w|])
    ensures s != [] && !IsSpace(s[0]) ==> w != []
  {
    if s == [] || IsSpace(s[0]) then [] else [s[0]] + LeadingWord(s[1..])
  }

  /** The tokens of a line, as `operator>>` extracts them one after another. */
  function Tokens(s: string): (ts: seq<string>)
    ensures |ts| <= |s|
    decreases |s|
  {
    if s == [] then []
    else if IsSpace(s[0]) then Tokens(s[1..])
    else
      var w := LeadingWord(s);
      [w] + Tokens(s[|w|..])
  }

  /** Tokens: every token is non-empty and holds no white space. */
  lemma {:induction false} TokensAreWords(s: string)
    ensures forall k :: 0 <= k < |Tokens(s)| ==> IsWord(Tokens(s)[k])
    decreases |s|
  {
    if s != [] {
      if IsSpace(s[0]) {
        TokensAreWords(s[1..]);
      } else {
        var w := LeadingWord(s);
        TokensAreWords(s[|w|..]);
        assert Tokens(s) == [w] + Tokens(s[|w|..]);
      }
    }
  }

  /** The characters of `s` that are not white space, in order. */
  function Squeeze(s: string): (r: string)
    ensures |r| <= |s|
    ensures forall k :: 0 <= k < |r| ==> !IsSpace(r[k])
  {
    if s == [] then []
    else if IsSpace(s[0]) then Squeeze(s[1..])
    else [s[0]] + Squeeze(s[1..])
  }

  /** The tokens written one after another. */
  function Concat(ts: seq<string>): string {
    if ts == [] then [] else ts[0] + Concat(ts[1..])
  }

  /** The tokens joined by single spaces. */
  function Unwords(ts: seq<string>): string {
    if ts == [] then []
    else if |ts| == 1 then ts[0]
    else ts[0] + [' '] + Unwords(ts[1..])
  }

  lemma {:induction false} SqueezeAppend(a: string, b: string)
    ensures Squeeze(a + b) == Squeeze(a) + Squeeze(b)
    decreases |a|
  {
    if a == [] {
      assert a + b == b;
    } else {
      assert (a + b)[1..] == a[1..] + b;
      SqueezeAppend(a[1..], b);
    }
  }

  /** A word followed by white space or by nothing is read back as exactly that word. */
  lemma {:induction false} LeadingWordOf(w: string, rest: string)
    requires forall k :: 0 <= k < |w| ==> !IsSpace(w[k])
    requires rest == [] || IsSpace(rest[0])
    ensures LeadingWord(w + rest) == w
    decreases |w|
  {
    if w != [] {
      assert (w + rest)[1..] == w[1..] + rest;
      LeadingWordOf(w[1..], rest);
    }
  }

  /** A word that ends at white space (or at the end of the line) is one whole token. */
  lemma TokensAfterWord(w: string, rest: string)
    requires IsWord(w)
    requires rest == [] || IsSpace(rest[0])
    ensures Tokens(w + rest) == [w] + Tokens(rest)
  {
    LeadingWordOf(w, rest);
    assert (w + rest)[|w|..] == rest;
  }

  /** Extracting a word does not look past the first white space. */
  lemma {:induction false} LeadingWordStops(a: string, x: string)
    requires |LeadingWord(a)| < |a| || x == [] || IsSpace(x[0])
    ensures LeadingWord(a + x) == LeadingWord(a)
    decreases |a|
  {
    if a != [] && !IsSpace(a[0]) {
      assert (a + x)[1..] == a[1..] + x;
      LeadingWordStops(a[1..], x);
    }
  }

  /**
   Tokens: concatenating the tokens in order gives the line with every
   white-space character removed.
   */
  lemma {:induction false} ConcatTokens(s: string)
    ensures Concat(Tokens(s)) == Squeeze(s)
    decreases |s|
  {
    if s != [] {
      if IsSpace(s[0]) {
        ConcatTokens(s[1..]);
      } else {
        var w := LeadingWord(s);
        var ts := Tokens(s[|w|..]);
        assert Tokens(s) == [w] + ts;
        assert ([w] + ts)[1..] == ts;
        ConcatTokens(s[|w|..]);
        assert s == w + s[|w|..];
        SqueezeAppend(w, s[|w|..]);
        SqueezeOfWord(w);
      }
    }
  }

  lemma {:induction false} SqueezeOfWord(w: string)
    requires forall k :: 0 <= k < |w| ==> !IsSpace(w[k])
    ensures Squeeze(w) == w
    decreases |w|
  {
    if w != [] {
      SqueezeOfWord(w[1..]);
    }
  }

  /** A line has no tokens exactly when every character of it is white space. */
  lemma {:induction false} TokensEmpty(s: string)
    ensures Tokens(s) == [] <==> forall k :: 0 <= k < |s| ==> IsSpace(s[k])
    decreases |s|
  {
    if s != [] && IsSpace(s[0]) {
      TokensEmpty(s[1..]);
      assert forall k :: 1 <= k < |s| ==> s[k] == s[1..][k - 1];
    }
  }

  /** One white-space character separates the tokens on its two sides. */
  lemma {:induction false} TokensSplit(a: string, c: char, b: string)
    requires IsSpace(c)
    ensures Tokens(a + [c] + b) == Tokens(a) + Tokens(b)
    decreases |a|
  {
    var s := a + [c] + b;
    if a == [] {
      assert s[1..] == b;
    } else if IsSpace(a[0]) {
      assert s[1..] == a[1..] + [c] + b;
      TokensSplit(a[1..], c, b);
    } else {
      var w := LeadingWord(a);
      LeadingWordStops(a, [c] + b);
      assert s == a + ([c] + b);
      assert LeadingWord(s) == w;
      assert a == w + a[|w|..];
      assert s[|w|..] == a[|w|..] + [c] + b;
      TokensSplit(a[|w|..], c, b);
    }
  }

  /** A word set off by spaces on both sides is one token between the tokens of the two sides. */
  lemma TokensAroundWord(a: string, w: string, b: string)
    requires IsWord(w)
    ensures Tokens(a + [' '] + (w + [' '] + b)) == Tokens(a) + ([w] + Tokens(b))
  {
    TokensSplit(a, ' ', w + [' '] + b);
    TokensSplit(w, ' ', b);
    TokensOfWord(w);
  }

  /** A word alone is one token. */
  lemma TokensOfWord(w: string)
    requires IsWord(w)
    ensures Tokens(w) == [w]
  {
    TokensAfterWord(w, []);
    assert w + [] == w;
  }

  /** A single space added at either end changes no token. */
  lemma TokensPadded(a: string)
    ensures Tokens(a + [' ']) == Tokens(a)
    ensures Tokens([' '] + a) == Tokens(a)
  {
    TokensSplit(a, ' ', []);
    assert a + [' '] + [] == a + [' '];
    TokensSplit([], ' ', a);
    assert [] + [' '] + a == [' '] + a;
  }

  /** Tokens: joining well-formed tokens with spaces and tokenizing gives them back. */
  lemma {:induction false} TokensOfUnwords(ts: seq<string>)
    requires forall k :: 0 <= k < |ts| ==> IsWord(ts[k])
    ensures Tokens(Unwords(ts)) == ts
    decreases |ts|
  {
    if |ts| == 1 {
      TokensAfterWord(ts[0], []);
      assert ts[0] + [] == ts[0];
    } else if |ts| > 1 {
      TokensOfUnwords(ts[1..]);
      var rest := [' '] + Unwords(ts[1..]);
      assert Unwords(ts) == ts[0] + rest;
      TokensAfterWord(ts[0], rest);
      assert rest[1..] == Unwords(ts[1..]);
    }
  }

  /**
   One extraction by `operator>>` once the white space before a word has been
   skipped: read characters up to the next white space or the end of the line.
   */
  method ExtractWord(line: string, start: nat) returns (end: nat)
    requires start < |line| && !IsSpace(line[start])
    ensures start < end <= |line|
    ensures IsWord(line[start..end])
    ensures end == |line| || IsSpace(line[end])
  {
    end := start + 1;
    while end < |line| && !IsSpace(line[end])
      invariant start < end <= |line|
      invariant forall k :: start <= k < end ==> !IsSpace(line[k])
      decreases |line| - end
    {
      end := end + 1;
    }
  }

  /**
   The tokenizing loop: each pass skips one white-space character or extracts
   one whole word, and appends the word to the vector.
   */
  method Tokenize(line: string) returns (tokens: seq<string>)
    ensures tokens == Tokens(line)
  {
    tokens := [];
    var i := 0;
    while i < |line|
      invariant 0 <= i <= |line|
      invariant tokens + Tokens(line[i..]) == Tokens(line)
      decreases |line| - i
    {
      if IsSpace(line[i]) {
        assert Tokens(line[i..]) == Tokens(line[i + 1..]) by {
          assert line[i..][1..] == line[i + 1..];
        }
        i := i + 1;
      } else {
        var end := ExtractWord(line, i);
        var word := line[i..end];
        assert Tokens(line[i..]) == [word] + Tokens(line[end..]) by {
          assert line[i..] == word + line[end..];
          TokensAfterWord(word, line[end..]);
        }
        assert (tokens + [word]) + Tokens(line[end..]) == tokens + ([word] + Tokens(line[end..]));
        tokens := tokens + [word];
        i := end;
      }
    }
    assert line[i..] == [];
  }
}
