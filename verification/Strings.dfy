// Splitting and joining strings at a separator character.
module Strings {

  /** `s.split(sep)` */
  function Split(s: string, sep: char): (parts: seq<string>)
    ensures |parts| >= 1
  {
    if s == "" then [""]
    else
      var rest := Split(s[1..], sep);
      if s[0] == sep then [""] + rest else [[s[0]] + rest[0]] + rest[1..]
  }

  function Join(parts: seq<string>, sep: char): string
    requires parts != []
  {
    if |parts| == 1 then parts[0] else parts[0] + [sep] + Join(parts[1..], sep)
  }

  lemma {:induction false} SplitToken(token: string, sep: char)
    requires sep !in token
    ensures Split(token, sep) == [token]
  {
    if token != "" {
      SplitToken(token[1..], sep);
      assert token[0] in token && [token[0]] + token[1..] == token;
    }
  }

  lemma {:induction false} SplitFirst(token: string, rest: string, sep: char)
    requires sep !in token
    ensures Split(token + [sep] + rest, sep) == [token] + Split(rest, sep)
  {
    var s := token + [sep] + rest;
    if token == "" {
      assert s[1..] == rest;
    } else {
      assert s[1..] == token[1..] + [sep] + rest;
      SplitFirst(token[1..], rest, sep);
      assert s[0] in token && [s[0]] + token[1..] == token;
      var tail := Split(s[1..], sep);
      assert tail[0] == token[1..] && tail[1..] == Split(rest, sep);
    }
  }

  /** Splitting undoes joining, for parts without the separator. */
  lemma {:induction false} SplitJoin(parts: seq<string>, sep: char)
    requires parts != [] && forall p | p in parts :: sep !in p
    ensures Split(Join(parts, sep), sep) == parts
  {
    if |parts| == 1 {
      SplitToken(parts[0], sep);
    } else {
      SplitJoin(parts[1..], sep);
      SplitFirst(parts[0], Join(parts[1..], sep), sep);
    }
  }
}
