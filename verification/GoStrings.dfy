/** The string operations the injector uses, on ASCII text. */
module GoStrings {

  predicate Contains(s: string, part: string) {
    exists i | 0 <= i <= |s| :: part <= s[i..]
  }

  predicate ContainsAny(s: string, parts: seq<string>) {
    exists part <- parts :: Contains(s, part)
  }

  predicate HasAnyPrefix(s: string, prefixes: seq<string>) {
    exists prefix <- prefixes :: prefix <= s
  }

  function ToLower(s: string): string {
    if s == "" then "" else [if 'A' <= s[0] <= 'Z' then s[0] - 'A' + 'a' else s[0]] + ToLower(s[1..])
  }

  predicate IsSpace(c: char) {
    c == ' ' || c == '\t' || c == '\n' || c == '\r' || c == '\U{0B}' || c == '\U{0C}'
  }

  function TrimSpace(s: string): string
    decreases |s|
  {
    if s != "" && IsSpace(s[0]) then TrimSpace(s[1..])
    else if s != "" && IsSpace(s[|s| - 1]) then TrimSpace(s[..|s| - 1])
    else s
  }

  /** The parts between separators; a string without one is a single part. */
  function Split(s: string, separator: char): seq<string> {
    if s == "" then [""]
    else
      var rest := Split(s[1..], separator);
      if s[0] == separator then [""] + rest
      else if rest == [] then [[s[0]]]
      else [[s[0]] + rest[0]] + rest[1..]
  }

  // ---------- What they do ----------

  function Lower(c: char): char {
    if 'A' <= c <= 'Z' then c - 'A' + 'a' else c
  }

  lemma {:induction false} LoweredAt(s: string)
    ensures |ToLower(s)| == |s| && forall i | 0 <= i < |s| :: ToLower(s)[i] == Lower(s[i])
  {
    if s != "" {
      LoweredAt(s[1..]);
    }
  }

  /** Space around a text that neither begins nor ends with space is trimmed. */
  lemma {:induction false} TrimsSpace(before: string, s: string, after: string)
    requires s != "" && !IsSpace(s[0]) && !IsSpace(s[|s| - 1])
    requires (forall c <- before :: IsSpace(c)) && (forall c <- after :: IsSpace(c))
    ensures TrimSpace(before + s + after) == s
    decreases |before| + |after|
  {
    var text := before + s + after;
    if before != "" {
      assert before[0] in before && forall c <- before[1..] :: c in before;
      TrimsSpace(before[1..], s, after);
      assert text[0] == before[0] && text[1..] == before[1..] + s + after;
    } else if after != "" {
      var n := |after| - 1;
      assert after[n] in after && forall c <- after[..n] :: c in after;
      TrimsSpace("", s, after[..n]);
      assert text[0] == s[0] && text[|text| - 1] == after[n] && text[..|text| - 1] == "" + s + after[..n];
    } else {
      assert text == s;
    }
  }

  lemma {:induction false} SplitPart(a: string, rest: string, separator: char)
    requires separator !in a
    ensures Split(a, separator) == [a]
    ensures Split(a + [separator] + rest, separator) == [a] + Split(rest, separator)
  {
    var s := a + [separator] + rest;
    if a == "" {
      assert s[0] == separator && s[1..] == rest;
    } else {
      SplitPart(a[1..], rest, separator);
      assert s[0] == a[0] && s[1..] == a[1..] + [separator] + rest;
      assert [a[0]] + a[1..] == a;
    }
  }
}
