/**
 The token matcher: `query.split(/\s+/).filter(Boolean)` cuts the query into
 tokens, and a title matches when its lower-cased text contains every
 lower-cased token (an empty query matches every title).
 */
module Matcher {
  import opened Text

  /** The word collected so far, as a list of at most one token. */
  function Flush(word: string): (r: seq<string>)
    ensures word == [] ==> r == []
    ensures word != [] ==> r == [word]
  {
    if word == [] then [] else [word]
  }

  /** Scans `s` left to right, extending `word` with each non-whitespace
      character and emitting it at each whitespace character and at the end. */
  function Scan(s: string, word: string): seq<string>
  {
    if s == [] then Flush(word)
    else if IsSpace(s[0]) then Flush(word) + Scan(s[1..], [])
    else Scan(s[1..], word + [s[0]])
  }

  /** `s.split(/\s+/).filter(Boolean)`: the maximal runs of non-whitespace
      characters of `s`, left to right. Splitting on `/\s+/` yields these runs
      and at most one empty string at either end; the filter drops those. */
  function Tokens(s: string): (r: seq<string>)
    ensures forall j :: 0 <= j < |r| ==> r[j] != [] && NoSpace(r[j])
    ensures r == [] <==> AllSpace(s)
  {
    ScanWords(s, []);
    ScanEmptyIff(s, []);
    Scan(s, [])
  }

  /** Every token is a non-empty run of non-whitespace characters. */
  lemma {:induction false} ScanWords(s: string, word: string)
    requires NoSpace(word)
    ensures forall j :: 0 <= j < |Scan(s, word)| ==> Scan(s, word)[j] != [] && NoSpace(Scan(s, word)[j])
    decreases |s|
  {
    if s != [] {
      if IsSpace(s[0]) {
        ScanWords(s[1..], []);
      } else {
        var w := word + [s[0]];
        assert forall k :: 0 <= k < |w| ==> w[k] == if k < |word| then word[k] else s[0];
        ScanWords(s[1..], w);
      }
    }
  }

  lemma {:induction false} ScanEmptyIff(s: string, word: string)
    ensures Scan(s, word) == [] <==> word == [] && AllSpace(s)
    decreases |s|
  {
    if s != [] {
      if IsSpace(s[0]) {
        ScanEmptyIff(s[1..], []);
      } else {
        ScanEmptyIff(s[1..], word + [s[0]]);
      }
      if AllSpace(s[1..]) {
        forall k | 0 < k < |s| ensures IsSpace(s[k]) { assert s[k] == s[1..][k - 1]; }
      }
    }
  }

  lemma {:induction false} ScanSplit(a: string, c: char, b: string, word: string)
    requires IsSpace(c)
    ensures Scan(a + [c] + b, word) == Scan(a, word) + Tokens(b)
    decreases |a|
  {
    var s := a + [c] + b;
    if a == [] {
      assert s[1..] == b;
    } else {
      assert s[1..] == a[1..] + [c] + b;
      if IsSpace(a[0]) {
        ScanSplit(a[1..], c, b, []);
      } else {
        ScanSplit(a[1..], c, b, word + [a[0]]);
      }
    }
  }

  /** A whitespace character separates the tokens of what precedes it from
      the tokens of what follows it. */
  lemma TokensSplitAtSpace(a: string, c: char, b: string)
    requires IsSpace(c)
    ensures Tokens(a + [c] + b) == Tokens(a) + Tokens(b)
  {
    ScanSplit(a, c, b, []);
  }

  /** Whitespace before a string adds no token. */
  lemma TokensLeadingSpace(a: string, r: string)
    requires AllSpace(a)
    ensures Tokens(a + r) == Tokens(r)
  {
    if a != [] {
      var a', c := a[..|a| - 1], a[|a| - 1];
      assert a' + [c] + r == a + r;
      assert AllSpace(a') by {
        forall k | 0 <= k < |a'| ensures IsSpace(a'[k]) { assert a'[k] == a[k]; }
      }
      TokensSplitAtSpace(a', c, r);
    } else {
      assert a + r == r;
    }
  }

  /** Whitespace after a string adds no token. */
  lemma TokensTrailingSpace(r: string, b: string)
    requires AllSpace(b)
    ensures Tokens(r + b) == Tokens(r)
  {
    if b != [] {
      assert r + [b[0]] + b[1..] == r + b;
      assert AllSpace(b[1..]) by {
        forall k | 0 <= k < |b| - 1 ensures IsSpace(b[1..][k]) { assert b[1..][k] == b[k + 1]; }
      }
      TokensSplitAtSpace(r, b[0], b[1..]);
    } else {
      assert r + b == r;
    }
  }

  /** Trimming a string does not change its tokens. */
  lemma TokensTrim(s: string)
    ensures Tokens(Trim(s)) == Tokens(s)
  {
    var r := Trim(s);
    var i := TrimParts(s);
    var a, b := s[..i], s[i + |r|..];
    assert s == a + (r + b);
    TokensLeadingSpace(a, r + b);
    TokensTrailingSpace(r, b);
  }

  function LowerAll(ts: seq<string>): (r: seq<string>)
    ensures |r| == |ts| && forall j :: 0 <= j < |ts| ==> r[j] == Lower(ts[j])
  {
    seq(|ts|, j requires 0 <= j < |ts| => Lower(ts[j]))
  }

  lemma LowerAllConcat(xs: seq<string>, ys: seq<string>)
    ensures LowerAll(xs + ys) == LowerAll(xs) + LowerAll(ys)
  {
    assert forall j :: 0 <= j < |xs + ys| ==> (xs + ys)[j] == if j < |xs| then xs[j] else ys[j - |xs|];
  }

  lemma {:induction false} ScanLower(s: string, word: string)
    ensures Scan(Lower(s), Lower(word)) == LowerAll(Scan(s, word))
    decreases |s|
  {
    var l := Lower(s);
    assert Lower([]) == [];
    if s == [] {
      assert l == [];
    } else {
      assert l[1..] == Lower(s[1..]);
      if IsSpace(s[0]) {
        ScanLower(s[1..], []);
        LowerAllConcat(Flush(word), Scan(s[1..], []));
      } else {
        assert Lower(word + [s[0]]) == Lower(word) + [l[0]];
        ScanLower(s[1..], word + [s[0]]);
      }
    }
  }

  /** Lower-casing the query lower-cases each token and keeps their number
      and order, because it maps whitespace to whitespace. */
  lemma TokensLower(s: string)
    ensures Tokens(Lower(s)) == LowerAll(Tokens(s))
  {
    assert Lower([]) == [];
    ScanLower(s, []);
  }

  /** `tokens.every(t => lowerTitle.includes(t.toLowerCase()))`. */
  function Every(lowerTitle: string, tokens: seq<string>): (b: bool)
    ensures b <==> forall j :: 0 <= j < |tokens| ==> Occurs(lowerTitle, Lower(tokens[j]))
  {
    if tokens == [] then true
    else Includes(lowerTitle, Lower(tokens[0])) && Every(lowerTitle, tokens[1..])
  }

  /** `matches(title, query)`: true when every token of the query, lower-cased,
      is a substring of the lower-cased title. */
  function Matches(title: string, query: string): (b: bool)
    ensures b <==> forall j :: 0 <= j < |Tokens(query)| ==> Occurs(Lower(title), Lower(Tokens(query)[j]))
  {
    if query == "" then true
    else Every(Lower(title), Tokens(query))
  }

  /** An empty or whitespace-only query leaves no tokens and matches every title. */
  lemma WhitespaceQueryMatchesAll(title: string, query: string)
    requires AllSpace(query)
    ensures Matches(title, query)
  {
  }

  /** The empty title matches exactly the queries without tokens. */
  lemma EmptyTitleMatchesIff(query: string)
    ensures Matches("", query) <==> AllSpace(query)
  {
    var ts := Tokens(query);
    if ts != [] {
      assert |Lower(ts[0])| > 0;
      assert !Occurs("", Lower(ts[0]));
    }
  }

  /** Only the set of tokens matters: their order and repetitions do not. */
  lemma MatchesDependsOnTokenSet(title: string, q1: string, q2: string)
    requires forall w :: w in Tokens(q1) <==> w in Tokens(q2)
    ensures Matches(title, q1) == Matches(title, q2)
  {
    var t1, t2 := Tokens(q1), Tokens(q2);
    if Matches(title, q1) {
      forall j | 0 <= j < |t2| ensures Occurs(Lower(title), Lower(t2[j])) {
        assert t2[j] in t1;
        var k :| 0 <= k < |t1| && t1[k] == t2[j];
      }
    }
    if Matches(title, q2) {
      forall j | 0 <= j < |t1| ensures Occurs(Lower(title), Lower(t1[j])) {
        assert t1[j] in t2;
        var k :| 0 <= k < |t2| && t2[k] == t1[j];
      }
    }
  }

  lemma MatchesLowerQuery(title: string, query: string)
    ensures Matches(title, Lower(query)) == Matches(title, query)
  {
    TokensLower(query);
    var ts := Tokens(query);
    forall j | 0 <= j < |ts| ensures Lower(Tokens(Lower(query))[j]) == Lower(ts[j]) {
      LowerIdempotent(ts[j]);
    }
  }

  /** Matching ignores letter case on both sides. */
  lemma MatchesIgnoresCase(t1: string, t2: string, q1: string, q2: string)
    requires Lower(t1) == Lower(t2) && Lower(q1) == Lower(q2)
    ensures Matches(t1, q1) == Matches(t2, q2)
  {
    MatchesLowerQuery(t1, q1);
    MatchesLowerQuery(t1, q2);
  }

  /** Appending a token narrows the match: the longer query matches exactly
      the titles both parts match. */
  lemma MatchesAppendToken(title: string, q: string, w: string)
    ensures Matches(title, q + " " + w) <==> Matches(title, q) && Matches(title, w)
  {
    TokensSplitAtSpace(q, ' ', w);
    assert q + " " + w == q + [' '] + w;
    var tq, tw := Tokens(q), Tokens(w);
    var t := tq + tw;
    assert forall j :: 0 <= j < |tq| ==> t[j] == tq[j];
    assert forall j :: 0 <= j < |tw| ==> t[|tq| + j] == tw[j];
  }

  /** Trimming the query does not change which titles it matches. */
  lemma MatchesTrim(title: string, query: string)
    ensures Matches(title, Trim(query)) == Matches(title, query)
  {
    TokensTrim(query);
  }

  lemma {:induction false} ScanWord(w: string, word: string)
    requires NoSpace(w)
    ensures Scan(w, word) == Flush(word + w)
    decreases |w|
  {
    if w == [] {
      assert word + w == word;
    } else {
      assert NoSpace(w[1..]) by {
        forall k | 0 <= k < |w| - 1 ensures !IsSpace(w[1..][k]) { assert w[1..][k] == w[k + 1]; }
      }
      assert word + [w[0]] + w[1..] == word + w;
      ScanWord(w[1..], word + [w[0]]);
    }
  }

  /** A single word without whitespace is its own only token. */
  lemma TokensOfWord(w: string)
    requires w != [] && NoSpace(w)
    ensures Tokens(w) == [w]
  {
    ScanWord(w, []);
    assert [] + w == w;
  }

  /** A one-word query matches exactly the titles containing the word,
      regardless of case. */
  lemma MatchesWord(title: string, w: string)
    requires w != [] && NoSpace(w)
    ensures Matches(title, w) <==> Occurs(Lower(title), Lower(w))
  {
    TokensOfWord(w);
  }
}
