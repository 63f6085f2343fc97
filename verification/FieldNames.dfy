// Which field names the async HTTP connector treats as sensitive (connector-proxies/async-http/main.py).
// Names are ASCII.
module FieldNames {

  predicate IsUpper(c: char) { 'A' <= c <= 'Z' }

  /** The class [a-z0-9]. */
  predicate IsWord(c: char) { 'a' <= c <= 'z' || '0' <= c <= '9' }

  // ---------- normalized_field_name ----------

  /** `re.sub(r"([a-z0-9])([A-Z])", r"\1_\2", s)`: a match takes both characters. */
  function CamelSpaced(s: string): string {
    if |s| < 2 then s
    else if IsWord(s[0]) && IsUpper(s[1]) then [s[0], '_', s[1]] + CamelSpaced(s[2..])
    else [s[0]] + CamelSpaced(s[1..])
  }

  function LowerChar(c: char): char {
    if IsUpper(c) then c - 'A' + 'a' else c
  }

  function Lower(s: string): string {
    seq(|s|, i requires 0 <= i < |s| => LowerChar(s[i]))
  }

  /** The length of the longest prefix of word characters (or of other characters). */
  function RunLength(s: string, word: bool): (n: nat)
    ensures n <= |s|
    ensures forall i | 0 <= i < n :: IsWord(s[i]) == word
    ensures n < |s| ==> IsWord(s[n]) != word
  {
    if s != "" && IsWord(s[0]) == word then 1 + RunLength(s[1..], word) else 0
  }

  /** `re.sub(r"[^a-z0-9]+", "_", s)` */
  function Collapsed(s: string): string
    decreases |s|
  {
    if s == "" then ""
    else if IsWord(s[0]) then [s[0]] + Collapsed(s[1..])
    else "_" + Collapsed(s[RunLength(s, false)..])
  }

  function StripLeft(s: string): string {
    if s != "" && s[0] == '_' then StripLeft(s[1..]) else s
  }

  function StripRight(s: string): string {
    if s != "" && s[|s| - 1] == '_' then StripRight(s[..|s| - 1]) else s
  }

  function Normalized(name: string): string {
    StripRight(StripLeft(Collapsed(Lower(CamelSpaced(name)))))
  }

  // ---------- tokens ----------

  /** The maximal runs of word characters. */
  function Tokens(s: string): seq<string>
    decreases |s|
  {
    if s == "" then []
    else if IsWord(s[0]) then
      var n := RunLength(s, true);
      [s[..n]] + Tokens(s[n..])
    else Tokens(s[1..])
  }

  function Joined(tokens: seq<string>): string {
    if tokens == [] then ""
    else if |tokens| == 1 then tokens[0]
    else tokens[0] + "_" + Joined(tokens[1..])
  }

  ghost predicate IsToken(t: string) {
    t != "" && forall i | 0 <= i < |t| :: IsWord(t[i])
  }

  ghost predicate AreTokens(ts: seq<string>) {
    forall i | 0 <= i < |ts| :: IsToken(ts[i])
  }

  lemma {:induction false} TokensAreTokens(s: string)
    ensures AreTokens(Tokens(s))
    decreases |s|
  {
    if s != "" {
      if IsWord(s[0]) {
        var n := RunLength(s, true);
        TokensAreTokens(s[n..]);
      } else {
        TokensAreTokens(s[1..]);
      }
    }
  }

  lemma {:induction false} RunLengthIs(s: string, t: string, word: bool)
    requires t <= s && (forall i | 0 <= i < |t| :: IsWord(t[i]) == word)
    requires |t| < |s| ==> IsWord(s[|t|]) != word
    ensures RunLength(s, word) == |t|
  {
    assert forall i | 0 <= i < |t| :: s[i] == t[i];
  }

  /** Leading separators do not matter. */
  lemma {:induction false} TokensSkip(s: string)
    ensures Tokens(s) == Tokens(s[RunLength(s, false)..])
    decreases |s|
  {
    if s != "" && !IsWord(s[0]) {
      TokensSkip(s[1..]);
      assert s[1..][RunLength(s[1..], false)..] == s[RunLength(s, false)..];
    }
  }

  lemma {:induction false} CollapsedWord(t: string, rest: string)
    requires forall i | 0 <= i < |t| :: IsWord(t[i])
    ensures Collapsed(t + rest) == t + Collapsed(rest)
  {
    if t == "" {
      assert t + rest == rest;
    } else {
      var s := t + rest;
      assert s[0] == t[0] && s[1..] == t[1..] + rest;
      CollapsedWord(t[1..], rest);
      assert [t[0]] + t[1..] == t;
    }
  }

  /** "_" when `s` ends in a separator. */
  function Tail(s: string): string
    requires s != ""
  {
    if IsWord(s[|s| - 1]) then "" else "_"
  }

  lemma {:induction false} JoinedCons(t: string, ts: seq<string>)
    requires ts != []
    ensures Joined([t] + ts) == t + "_" + Joined(ts)
  {
    assert ([t] + ts)[1..] == ts;
  }

  ghost function Skip(s: string): string {
    s[RunLength(s, false)..]
  }

  lemma {:induction false} SkipEnds(s: string)
    requires s != ""
    ensures Skip(s) != "" ==> IsWord(Skip(s)[0]) && Skip(s)[|Skip(s)| - 1] == s[|s| - 1]
    ensures Skip(s) == "" ==> !IsWord(s[|s| - 1])
    ensures |Skip(s)| <= |s|
  {
  }

  /** A word and the separators after it: what collapsing and splitting do with them. */
  lemma {:induction false} FirstWord(s: string, t: string, v: string)
    requires t != "" && s == t + v && (forall i | 0 <= i < |t| :: IsWord(t[i])) && (v != "" ==> !IsWord(v[0]))
    ensures Tokens(s) == [t] + Tokens(Skip(v))
    ensures Collapsed(s) == if Skip(v) != "" then t + "_" + Collapsed(Skip(v)) else t + Tail(s)
  {
    hide Tokens, RunLength, Collapsed, Skip;
    RunLengthIs(s, t, true);
    TokensFirst(s);
    assert s[..|t|] == t && s[|t|..] == v;
    SkipTokens(v);
    CollapsedWord(t, v);
    if v == "" {
      SkipNothing();
      NothingCollapsed();
      assert s[|s| - 1] == t[|t| - 1];
    } else {
      SkipEnds(v);
      CollapsedSeparators(v);
      assert s[|s| - 1] == v[|v| - 1];
      if Skip(v) == "" {
        NothingCollapsed();
      } else {
        assert t + ("_" + Collapsed(Skip(v))) == t + "_" + Collapsed(Skip(v));
      }
    }
  }

  lemma {:induction false} SkipTokens(s: string)
    ensures Tokens(s) == Tokens(Skip(s))
  {
    TokensSkip(s);
  }

  lemma {:induction false} SkipNothing()
    ensures Skip("") == ""
  {
  }

  lemma {:induction false} CollapsedSeparators(s: string)
    requires s != "" && !IsWord(s[0])
    ensures Collapsed(s) == "_" + Collapsed(Skip(s))
  {
  }

  lemma {:induction false} TokensFirst(s: string)
    requires s != "" && IsWord(s[0])
    ensures Tokens(s) == [s[..RunLength(s, true)]] + Tokens(s[RunLength(s, true)..])
  {
  }

  /** Collapsing keeps the tokens, joined by single underscores, and one trailing separator. */
  lemma {:induction false} CollapsedJoins(s: string)
    requires s != "" && IsWord(s[0])
    ensures Tokens(s) != []
    ensures Collapsed(s) == Joined(Tokens(s)) + Tail(s)
    decreases |s|, 1
  {
    var n := RunLength(s, true);
    FirstWordEnds(s, s[..n], s[n..]);
  }

  lemma {:induction false} FirstWordEnds(s: string, t: string, v: string)
    requires t != "" && s == t + v && (forall i | 0 <= i < |t| :: IsWord(t[i])) && (v != "" ==> !IsWord(v[0]))
    ensures Tokens(s) != []
    ensures Collapsed(s) == Joined(Tokens(s)) + Tail(s)
    decreases |s|, 0
  {
    var rest := Skip(v);
    SkipNothing();
    if v != "" {
      SkipEnds(v);
    }
    assert rest != "" ==> Tail(rest) == Tail(s);
    hide Tokens, Collapsed, RunLength, Skip, Tail, Joined;
    FirstWord(s, t, v);
    if rest != "" {
      CollapsedJoins(rest);
      JoinedCons(t, Tokens(rest));
      Regroup(t, Joined(Tokens(rest)), Tail(rest));
    } else {
      NoTokens();
      JoinedOne(t);
    }
  }

  lemma {:induction false} Regroup(t: string, j: string, e: string)
    ensures t + "_" + (j + e) == (t + "_" + j) + e
  {
  }

  lemma {:induction false} JoinedOne(t: string)
    ensures Joined([t] + []) == t
  {
  }

  lemma {:induction false} NoTokens()
    ensures Tokens("") == []
  {
  }

  lemma {:induction false} JoinedEnds(ts: seq<string>)
    requires ts != [] && AreTokens(ts)
    ensures Joined(ts) != "" && IsWord(Joined(ts)[0]) && IsWord(Joined(ts)[|Joined(ts)| - 1])
  {
    assert IsToken(ts[0]);
    if |ts| > 1 {
      JoinedEnds(ts[1..]);
      var rest := Joined(ts[1..]);
      assert Joined(ts)[|Joined(ts)| - 1] == rest[|rest| - 1];
    }
  }

  /** Collapsing and stripping give the tokens joined by underscores. */
  lemma {:induction false} StrippedJoins(s: string)
    ensures StripRight(StripLeft(Collapsed(s))) == Joined(Tokens(s))
  {
    var v := s[RunLength(s, false)..];
    TokensSkip(s);
    TokensAreTokens(v);
    assert Collapsed(s) == (if s != "" && !IsWord(s[0]) then "_" else "") + Collapsed(v);
    if v != "" {
      CollapsedJoins(v);
      JoinedEnds(Tokens(v));
    }
    hide Tokens, RunLength, Collapsed;
    StripEnds(if s != "" && !IsWord(s[0]) then "_" else "", Joined(Tokens(v)), if v == "" then "" else Tail(v));
    NoTokens();
    NothingCollapsed();
  }

  lemma {:induction false} NothingCollapsed()
    ensures Collapsed("") == ""
  {
  }

  lemma {:induction false} StripEnds(left: string, x: string, right: string)
    requires left == "" || left == "_"
    requires right == "" || right == "_"
    requires x == "" ==> right == ""
    requires x != "" ==> x[0] != '_' && x[|x| - 1] != '_'
    ensures StripRight(StripLeft(left + (x + right))) == x
  {
    assert StripLeft(left + (x + right)) == x + right by {
      assert (left + (x + right))[|left|..] == x + right;
    }
    hide StripLeft;
    assert (x + right)[..|x|] == x;
  }

  lemma {:induction false} TokensOfJoined(ts: seq<string>)
    requires AreTokens(ts)
    ensures Tokens(Joined(ts)) == ts
  {
    if ts == [] {
      NoTokens();
    } else {
      hide Tokens;
      var t, s := ts[0], Joined(ts);
      assert IsToken(t);
      var after := if |ts| == 1 then "" else "_" + Joined(ts[1..]);
      assert s == t + after;
      RunLengthIs(s, t, true);
      TokensFirst(s);
      assert s[|t|..] == after;
      if |ts| == 1 {
        NoTokens();
      } else {
        TokensOfJoined(ts[1..]);
        TokensAfterSeparator(Joined(ts[1..]));
      }
    }
  }

  lemma {:induction false} TokensAfterSeparator(s: string)
    ensures Tokens("_" + s) == Tokens(s)
  {
    assert ("_" + s)[1..] == s;
  }

  lemma {:induction false} NoCapitals(s: string)
    requires forall i | 0 <= i < |s| :: !IsUpper(s[i])
    ensures CamelSpaced(s) == s && Lower(s) == s
  {
    if |s| >= 2 {
      NoCapitals(s[1..]);
    }
  }

  lemma {:induction false} JoinedHasNoCapitals(ts: seq<string>)
    requires AreTokens(ts)
    ensures forall i | 0 <= i < |Joined(ts)| :: !IsUpper(Joined(ts)[i])
  {
    if ts != [] {
      assert IsToken(ts[0]);
      if |ts| > 1 {
        JoinedHasNoCapitals(ts[1..]);
      }
    }
  }

  lemma {:induction false} OnlyCapitals(s: string)
    requires forall i | 0 <= i < |s| :: !IsWord(s[i])
    ensures CamelSpaced(s) == s
  {
    if |s| >= 2 {
      OnlyCapitals(s[1..]);
    }
  }

  lemma {:induction false} OneToken(before: string, t: string, after: string)
    requires IsToken(t)
    requires forall i | 0 <= i < |before| :: !IsWord(before[i])
    requires forall i | 0 <= i < |after| :: !IsWord(after[i])
    ensures Tokens(before + t + after) == [t]
  {
    hide Tokens;
    var s := before + t + after;
    assert s[|before|] == t[0];
    RunLengthIs(s, before, false);
    TokensSkip(s);
    assert s[|before|..] == t + after;
    RunLengthIs(t + after, t, true);
    TokensFirst(t + after);
    assert (t + after)[..|t|] == t && (t + after)[|t|..] == after;
    RunLengthIs(after, after, false);
    TokensSkip(after);
    assert after[|after|..] == "";
    NoTokens();
  }

  /** The tokens of a field name: split at separators and before a capital that follows a lower-case
      letter or digit, in lower case. */
  function NameTokens(name: string): seq<string> {
    Tokens(Lower(CamelSpaced(name)))
  }

  /** The normalised name is the tokens joined by underscores, and is its own normal form. */
  lemma {:induction false} NormalizedJoinsTokens(name: string)
    ensures Normalized(name) == Joined(NameTokens(name))
    ensures NameTokens(Normalized(name)) == NameTokens(name)
    ensures Normalized(Normalized(name)) == Normalized(name)
  {
    var ts := NameTokens(name);
    StrippedJoins(Lower(CamelSpaced(name)));
    TokensAreTokens(Lower(CamelSpaced(name)));
    JoinedHasNoCapitals(ts);
    NoCapitals(Joined(ts));
    TokensOfJoined(ts);
    StrippedJoins(Joined(ts));
  }

  // ---------- where a name is split ----------

  predicate IsLetterOrDigit(c: char) {
    'a' <= c <= 'z' || 'A' <= c <= 'Z' || '0' <= c <= '9'
  }

  /** A capital after a lower-case letter or digit. */
  predicate CamelAt(s: string, i: nat)
    requires 0 < i < |s|
  {
    ('a' <= s[i - 1] <= 'z' || '0' <= s[i - 1] <= '9') && 'A' <= s[i] <= 'Z'
  }

  /** What the spacing does at the start of a name. */
  lemma {:induction false} SpacedStart(s: string, n: nat)
    requires |s| >= 2 && n == (if IsWord(s[0]) && IsUpper(s[1]) then 2 else 1)
    ensures CamelSpaced(s) == (if n == 2 then [s[0], '_', s[1]] else [s[0]]) + CamelSpaced(s[n..])
  {
  }

  /** A match at the place between `p` and `q` takes the characters there, whatever matches before. */
  lemma {:induction false} SpacedApart(p: string, q: string)
    requires p != "" && q != "" && IsWord(p[|p| - 1]) && IsUpper(q[0])
    ensures CamelSpaced(p + q) == CamelSpaced(p) + "_" + CamelSpaced(q)
    decreases |p|
  {
    var s := p + q;
    assert s[0] == p[0];
    if |p| == 1 {
      assert s[2..] == q[1..];
      SpacedStart(s, 2);
      CapitalFirst(q);
      assert CamelSpaced(p) == p;
      assert [p[0], '_', q[0]] + CamelSpaced(q[1..]) == p + "_" + ([q[0]] + CamelSpaced(q[1..]));
    } else {
      var n := if IsWord(p[0]) && IsUpper(p[1]) then 2 else 1;
      assert s[1] == p[1] && s[n..] == p[n..] + q;
      hide CamelSpaced;
      SpacedStart(s, n);
      SpacedStart(p, n);
      SpacedApart(p[n..], q);
      Prepend(if n == 2 then [p[0], '_', p[1]] else [p[0]], CamelSpaced(p[n..]), CamelSpaced(q));
    }
  }

  lemma {:induction false} Prepend(x: string, a: string, b: string)
    ensures x + (a + "_" + b) == (x + a) + "_" + b
  {
  }

  lemma {:induction false} CapitalFirst(q: string)
    requires q != "" && IsUpper(q[0])
    ensures CamelSpaced(q) == [q[0]] + CamelSpaced(q[1..])
  {
    if |q| == 1 {
      assert q[1..] == "";
    }
  }

  lemma {:induction false} LowerJoins(p: string, q: string)
    ensures Lower(p + q) == Lower(p) + Lower(q)
  {
  }

  lemma {:induction false} TokensApart(p: string, c: char, q: string)
    requires !IsWord(c)
    ensures Tokens(p + [c] + q) == Tokens(p) + Tokens(q)
    decreases |p|
  {
    var s := p + [c] + q;
    if p == "" {
      assert s[1..] == q;
      NoTokens();
    } else if IsWord(p[0]) {
      var n := RunLength(p, true);
      RunLengthIs(s, p[..n], true);
      assert s[..n] == p[..n] && s[n..] == p[n..] + [c] + q;
      TokensApart(p[n..], c, q);
      assert [p[..n]] + Tokens(p[n..]) + Tokens(q) == [p[..n]] + (Tokens(p[n..]) + Tokens(q));
    } else {
      assert s[1..] == p[1..] + [c] + q;
      TokensApart(p[1..], c, q);
    }
  }

  /** A name is split where a capital follows a lower-case letter or digit. */
  lemma {:induction false} SplitAtCapital(p: string, q: string)
    requires p != "" && q != "" && CamelAt(p + q, |p|)
    ensures NameTokens(p + q) == NameTokens(p) + NameTokens(q)
  {
    SpacedApart(p, q);
    LowerJoins(CamelSpaced(p), "_");
    LowerJoins(CamelSpaced(p) + "_", CamelSpaced(q));
    TokensApart(Lower(CamelSpaced(p)), '_', Lower(CamelSpaced(q)));
    assert Lower("_") == "_";
  }

  /** A name is split at everything that is no letter and no digit. */
  lemma {:induction false} SplitAtSeparator(p: string, c: char, q: string)
    requires !IsLetterOrDigit(c)
    ensures NameTokens(p + [c] + q) == NameTokens(p) + NameTokens(q)
  {
    hide Tokens;
    assert p + [c] + q == p + ([c] + q);
    SpacedSeparator(p, c, q);
    LowerJoins(CamelSpaced(p), [c]);
    LowerJoins(CamelSpaced(p) + [c], CamelSpaced(q));
    TokensApart(Lower(CamelSpaced(p)), c, Lower(CamelSpaced(q)));
    assert Lower([c]) == [c];
  }

  lemma {:induction false} SpacedSeparator(p: string, c: char, q: string)
    requires !IsLetterOrDigit(c)
    ensures CamelSpaced(p + [c] + q) == CamelSpaced(p) + [c] + CamelSpaced(q)
    decreases |p|
  {
    var s := p + [c] + q;
    if p == "" {
      assert s == [c] + q && s[1..] == q;
      if q == "" {
        assert CamelSpaced(s) == [c] == [c] + CamelSpaced(q);
      }
    } else if |p| >= 2 && IsWord(p[0]) && IsUpper(p[1]) {
      assert s[2..] == p[2..] + [c] + q;
      SpacedSeparator(p[2..], c, q);
    } else {
      assert s[1..] == p[1..] + [c] + q;
      SpacedSeparator(p[1..], c, q);
      if |p| == 1 {
        assert p[1..] == "" && CamelSpaced("") == "";
      }
    }
  }

  /** A stretch of letters and digits is not split anywhere else: it is one token, in lower case. */
  lemma {:induction false} NotSplitElsewhere(s: string)
    requires s != "" && (forall i | 0 <= i < |s| :: IsLetterOrDigit(s[i]))
    requires forall i | 0 < i < |s| :: !CamelAt(s, i)
    ensures NameTokens(s) == [Lower(s)]
  {
    NoCamel(s);
    var t := Lower(s);
    assert forall i | 0 <= i < |t| :: IsWord(t[i]);
    OneToken("", t, "");
    assert "" + t + "" == t;
  }

  lemma {:induction false} NoCamel(s: string)
    requires forall i | 0 < i < |s| :: !CamelAt(s, i)
    ensures CamelSpaced(s) == s
  {
    if |s| >= 2 {
      assert !CamelAt(s, 1);
      forall i | 0 < i < |s| - 1
        ensures !CamelAt(s[1..], i)
      {
        assert !CamelAt(s, i + 1);
      }
      NoCamel(s[1..]);
    }
  }

  lemma {:induction false} EmptyNameHasNoTokens()
    ensures NameTokens("") == []
  {
    NoTokens();
  }

  // ---------- is_sensitive_field_name ----------

  /** The alternatives of each pattern, optional letters written out. A pattern matches an alternative
      that starts at the beginning or after "_" and stops at the end or before "_". */
  const PATTERNS: seq<seq<string>> := [
    ["authorization", "authentication", "auth"],
    ["password", "passwd", "pwd"],
    ["secret"],
    ["token", "jwt", "bearer"],
    ["credential", "credentials"],
    ["cookie"],
    ["session"],
    ["api_key", "apikey", "access_key", "private_key", "secret_key", "key"],
    ["csrf"]
  ]

  const SENSITIVE_TOKENS := {
    "authorization", "authentication", "auth", "password", "passwd", "pwd", "secret", "token", "jwt", "bearer",
    "credential", "credentials", "cookie", "session", "apikey", "key", "csrf"
  }

  predicate OccursAt(s: string, w: string, i: nat) {
    && i + |w| <= |s| && s[i..i + |w|] == w
    && (i == 0 || s[i - 1] == '_')
    && (i + |w| == |s| || s[i + |w|] == '_')
  }

  predicate Occurs(s: string, w: string) {
    exists i: nat | i <= |s| :: OccursAt(s, w, i)
  }

  predicate Searches(pattern: seq<string>, s: string) {
    exists w | w in pattern :: Occurs(s, w)
  }

  predicate IsSensitive(name: string) {
    exists p | p in PATTERNS :: Searches(p, Normalized(name))
  }

  ghost predicate NoUnderscore(w: string) {
    forall i | 0 <= i < |w| :: w[i] != '_'
  }

  /** Between underscores, a word without underscores is a whole token. */
  lemma {:induction false} OccurrenceIsToken(ts: seq<string>, w: string, i: nat)
    requires AreTokens(ts) && w != "" && NoUnderscore(w) && OccursAt(Joined(ts), w, i)
    ensures w in ts
  {
    var s := Joined(ts);
    if ts != [] {
      var t := ts[0];
      assert IsToken(t);
      assert forall k | 0 <= k < |t| :: s[k] == t[k] && s[k] != '_';
      assert forall k | 0 <= k < |w| :: s[i + k] == s[i..i + |w|][k] == w[k];
      if i == 0 {
        assert |ts| > 1 ==> s[|t|] == '_';
        assert |w| == |t|;
        assert w == s[..|t|] == t;
      } else {
        assert i > |t|;
        var rest := Joined(ts[1..]);
        assert s == (t + "_") + rest;
        var j := i - |t| - 1;
        assert rest[j..j + |w|] == s[i..i + |w|];
        assert j == 0 || rest[j - 1] == s[i - 1];
        OccurrenceIsToken(ts[1..], w, j);
      }
    }
  }

  lemma {:induction false} TokenOccurs(ts: seq<string>, w: string) returns (i: nat)
    requires AreTokens(ts) && w in ts
    ensures OccursAt(Joined(ts), w, i)
  {
    var s, t := Joined(ts), ts[0];
    if w == t {
      i := 0;
      assert s[..|t|] == t;
    } else {
      var j := TokenOccurs(ts[1..], w);
      var rest := Joined(ts[1..]);
      i := |t| + 1 + j;
      assert s == (t + "_") + rest;
      assert s[i..i + |w|] == rest[j..j + |w|];
    }
  }

  lemma {:induction false} OccursIsToken(ts: seq<string>, w: string)
    requires AreTokens(ts) && w != "" && NoUnderscore(w)
    ensures Occurs(Joined(ts), w) <==> w in ts
  {
    if Occurs(Joined(ts), w) {
      var i: nat :| OccursAt(Joined(ts), w, i);
      OccurrenceIsToken(ts, w, i);
    }
    if w in ts {
      var i := TokenOccurs(ts, w);
    }
  }

  /** A compound alternative only matches where its last part does. */
  lemma {:induction false} OccursLastPart(s: string, first: string, last: string)
    requires Occurs(s, first + "_" + last)
    ensures Occurs(s, last)
  {
    var w := first + "_" + last;
    var i: nat :| i <= |s| && OccursAt(s, w, i);
    var j := i + |first| + 1;
    assert s[i..i + |w|][|first| + 1..] == s[j..j + |last|];
    assert w[|first| + 1..] == last;
    assert s[j - 1] == s[i..i + |w|][|first|] == w[|first|];
    assert OccursAt(s, last, j);
  }

  const COMPOUNDS := ["api_key", "access_key", "private_key", "secret_key"]

  /** The alternatives are the sensitive tokens and four compounds. */
  lemma {:induction false} PatternWords(w: string)
    ensures (exists p | p in PATTERNS :: w in p) <==> w in SENSITIVE_TOKENS || w in COMPOUNDS
  {
    assert w in SENSITIVE_TOKENS || w in COMPOUNDS <==>
           w in PATTERNS[0] || w in PATTERNS[1] || w in PATTERNS[2] || w in PATTERNS[3] || w in PATTERNS[4]
           || w in PATTERNS[5] || w in PATTERNS[6] || w in PATTERNS[7] || w in PATTERNS[8];
    if i :| 0 <= i < |PATTERNS| && w in PATTERNS[i] {
      assert PATTERNS[i] in PATTERNS;
    }
    if p :| p in PATTERNS && w in p {
      var i :| 0 <= i < |PATTERNS| && p == PATTERNS[i];
    }
  }

  lemma {:induction false} CompoundEndsInKey(w: string) returns (first: string)
    requires w in COMPOUNDS
    ensures w == first + "_" + "key"
  {
    first := w[..|w| - 4];
  }

  lemma {:induction false} SensitiveTokensArePlain(w: string)
    requires w in SENSITIVE_TOKENS
    ensures w != "" && NoUnderscore(w)
  {
  }

  /** The nine patterns together match the normalised name exactly when one of the name's tokens is
      in a fixed set of seventeen. */
  lemma {:induction false} SensitiveIffToken(name: string)
    ensures IsSensitive(name) <==> exists t | t in NameTokens(name) :: t in SENSITIVE_TOKENS
  {
    var ts, s := NameTokens(name), Normalized(name);
    NormalizedJoinsTokens(name);
    TokensAreTokens(Lower(CamelSpaced(name)));
    assert AreTokens(ts);
    hide Normalized, NameTokens, Joined, Occurs, NoUnderscore, AreTokens, PATTERNS, SENSITIVE_TOKENS;
    if IsSensitive(name) {
      var p :| p in PATTERNS && Searches(p, s);
      var w :| w in p && Occurs(s, w);
      PatternWords(w);
      if w in SENSITIVE_TOKENS {
        SensitiveTokensArePlain(w);
        OccursIsToken(ts, w);
      } else {
        var first := CompoundEndsInKey(w);
        OccursLastPart(s, first, "key");
        KeyIsSensitive();
        SensitiveTokensArePlain("key");
        OccursIsToken(ts, "key");
      }
    }
    if t :| t in ts && t in SENSITIVE_TOKENS {
      SensitiveTokensArePlain(t);
      OccursIsToken(ts, t);
      PatternWords(t);
      var p :| p in PATTERNS && t in p;
      assert Searches(p, s);
    }
  }

  lemma {:induction false} KeyIsSensitive()
    ensures "key" in SENSITIVE_TOKENS
  {
  }

  /** `clientSecret` is sensitive for its second token, `keyboard` is not for its first letters. */
  lemma {:induction false} CamelCaseIsSensitive()
    ensures IsSensitive("clientSecret") && !IsSensitive("keyboard")
  {
    hide NameTokens, IsSensitive;
    assert "clientSecret" == "client" + "Secret";
    SplitAtCapital("client", "Secret");
    NotSplitElsewhere("client");
    NotSplitElsewhere("Secret");
    assert Lower("Secret") == "secret" && Lower("client") == "client";
    assert NameTokens("clientSecret") == ["client", "secret"];
    assert "secret" in NameTokens("clientSecret") by {
      assert ["client", "secret"][1] == "secret";
    }
    SensitiveIffToken("clientSecret");
    NotSplitElsewhere("keyboard");
    assert Lower("keyboard") == "keyboard";
    SensitiveIffToken("keyboard");
  }
}
