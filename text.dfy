/**
 * Character classes and string helpers used by both the backend and the client.
 * Rust's Unicode-aware `is_alphanumeric`, `to_lowercase`, `to_uppercase` and `trim`
 * are approximated by their ASCII behaviour.
 */
module Text {

  predicate IsAsciiLetter(c: char) {
    ('a' <= c <= 'z') || ('A' <= c <= 'Z')
  }

  predicate IsAsciiDigit(c: char) {
    '0' <= c <= '9'
  }

  /** `char::is_alphanumeric`, restricted to ASCII. */
  predicate IsAlphanumeric(c: char) {
    IsAsciiLetter(c) || IsAsciiDigit(c)
  }

  /** Rust's `char::is_whitespace`, restricted to ASCII. */
  predicate IsWhitespace(c: char) {
    c == ' ' || c == '\t' || c == '\n' || c == '\r' || c == '\U{B}' || c == '\U{C}'
  }

  function ToLowerChar(c: char): (r: char)
    ensures IsAlphanumeric(c) <==> IsAlphanumeric(r)
    ensures r == '-' <==> c == '-'
    ensures r == ' ' <==> c == ' '
    ensures !('A' <= r <= 'Z')
  {
    if 'A' <= c <= 'Z' then (c as int - 'A' as int + 'a' as int) as char else c
  }

  function ToUpperChar(c: char): (r: char)
    ensures !('a' <= r <= 'z')
    ensures IsAlphanumeric(c) <==> IsAlphanumeric(r)
  {
    if 'a' <= c <= 'z' then (c as int - 'a' as int + 'A' as int) as char else c
  }

  /** `str::to_lowercase`. */
  function Lower(s: string): (r: string)
    ensures |r| == |s|
    ensures forall i :: 0 <= i < |s| ==> r[i] == ToLowerChar(s[i])
  {
    if s == [] then [] else [ToLowerChar(s[0])] + Lower(s[1..])
  }

  lemma {:induction false} LowerIdempotent(s: string)
    ensures Lower(Lower(s)) == Lower(s)
  {
    if s != [] {
      LowerIdempotent(s[1..]);
      assert Lower(s)[1..] == Lower(s[1..]);
    }
  }

  predicate StartsWith(s: string, prefix: string) {
    |prefix| <= |s| && s[..|prefix|] == prefix
  }

  /** Leading whitespace removed (`str::trim_start`). */
  function TrimStart(s: string): (r: string)
    ensures |r| <= |s| && r == s[|s| - |r|..]
    ensures r == [] || !IsWhitespace(r[0])
    ensures forall i :: 0 <= i < |s| - |r| ==> IsWhitespace(s[i])
  {
    if s != [] && IsWhitespace(s[0]) then TrimStart(s[1..]) else s
  }

  /** Trailing whitespace removed (`str::trim_end`). */
  function TrimEnd(s: string): (r: string)
    ensures |r| <= |s| && r == s[..|r|]
    ensures r == [] || !IsWhitespace(r[|r| - 1])
    ensures forall i :: |r| <= i < |s| ==> IsWhitespace(s[i])
  {
    if s != [] && IsWhitespace(s[|s| - 1]) then TrimEnd(s[..|s| - 1]) else s
  }

  /** `r` sits in `s` at offset `k` with only whitespace before and after it. */
  predicate CoreAt(s: string, r: string, k: int) {
    && 0 <= k <= |s| - |r|
    && r == s[k..k + |r|]
    && (forall i :: 0 <= i < k ==> IsWhitespace(s[i]))
    && (forall i :: k + |r| <= i < |s| ==> IsWhitespace(s[i]))
  }

  /** `str::trim`: whitespace removed at both ends. */
  function Trim(s: string): (r: string)
    ensures r == [] || (!IsWhitespace(r[0]) && !IsWhitespace(r[|r| - 1]))
    ensures exists k :: CoreAt(s, r, k)
  {
    var t := TrimStart(s);
    var r := TrimEnd(t);
    CoreOfSlices(s, t, r);
    r
  }

  /** A prefix `r` of a suffix `t` of `s`, with whitespace cut off on both sides, sits in `s` at `|s| - |t|`. */
  lemma CoreOfSlices(s: string, t: string, r: string)
    requires |t| <= |s| && t == s[|s| - |t|..]
    requires forall i :: 0 <= i < |s| - |t| ==> IsWhitespace(s[i])
    requires |r| <= |t| && r == t[..|r|]
    requires forall i :: |r| <= i < |t| ==> IsWhitespace(t[i])
    ensures CoreAt(s, r, |s| - |t|)
  {
    var k := |s| - |t|;
    assert r == s[k..k + |r|];
    forall i | k + |r| <= i < |s|
      ensures IsWhitespace(s[i])
    {
      assert s[i] == t[i - k];
    }
  }

  /** A string with no whitespace at either end is its own trim. */
  lemma TrimUntouched(s: string)
    requires s == [] || (!IsWhitespace(s[0]) && !IsWhitespace(s[|s| - 1]))
    ensures Trim(s) == s
  {
  }

  /** `slice::iter().all(...)` for the slug character class: letters, digits and '-'. */
  predicate AllSlugChars(s: string) {
    forall i :: 0 <= i < |s| ==> IsAlphanumeric(s[i]) || s[i] == '-'
  }

  /** `[a, b, c].join(sep)`. */
  function Join(parts: seq<string>, sep: char): string {
    if |parts| == 0 then ""
    else if |parts| == 1 then parts[0]
    else parts[0] + [sep] + Join(parts[1..], sep)
  }

  /** `str::split(sep)`: the pieces between separators, at least one; joining them gives `s` back. */
  function Split(s: string, sep: char): (r: seq<string>)
    ensures |r| >= 1
    ensures forall i :: 0 <= i < |r| ==> sep !in r[i]
    ensures Join(r, sep) == s
  {
    if |s| == 0 then [""]
    else
      var rest := Split(s[1..], sep);
      if s[0] == sep then
        assert Join([""] + rest, sep) == [sep] + Join(rest, sep) by {
          assert ([""] + rest)[1..] == rest;
        }
        [""] + rest
      else
        var r := [[s[0]] + rest[0]] + rest[1..];
        assert Join(r, sep) == [s[0]] + Join(rest, sep) by {
          if |rest| > 1 {
            assert r[1..] == rest[1..];
          }
        }
        r
  }

  /** Splitting undoes joining pieces that do not contain the separator. */
  lemma {:induction false} SplitJoin(parts: seq<string>, sep: char)
    requires |parts| >= 1
    requires forall i :: 0 <= i < |parts| ==> sep !in parts[i]
    ensures Split(Join(parts, sep), sep) == parts
    decreases |parts|, |parts[0]|, 1
  {
    var p := parts[0];
    if |parts| == 1 {
      if p != "" {
        SplitJoinOne(p, sep);
      }
    } else if p == "" {
      SplitJoinEmptyHead(parts, sep);
    } else {
      SplitJoinCharHead(parts, sep);
    }
  }

  /** The case of `SplitJoin` with one non-empty piece. */
  lemma {:induction false} SplitJoinOne(p: string, sep: char)
    requires p != "" && sep !in p
    ensures Split(Join([p], sep), sep) == [p]
    decreases 1, |p|, 0
  {
    assert sep !in p[1..] by {
      assert forall c :: c in p[1..] ==> c in p;
    }
    SplitJoin([p[1..]], sep);
    assert p[0] != sep by { assert p[0] in p; }
    SplitCons(p[0], p[1..], sep);
    assert p == [p[0]] + p[1..];
  }

  /** The case of `SplitJoin` whose first piece is empty: the join starts with the separator. */
  lemma {:induction false} SplitJoinEmptyHead(parts: seq<string>, sep: char)
    requires |parts| >= 2 && parts[0] == ""
    requires forall i :: 0 <= i < |parts| ==> sep !in parts[i]
    ensures Split(Join(parts, sep), sep) == parts
    decreases |parts|, 0, 0
  {
    var rest := parts[1..];
    SplitJoin(rest, sep);
    assert Join(parts, sep) == [sep] + Join(rest, sep);
    SplitSep(Join(rest, sep), sep);
    assert parts == [""] + rest;
  }

  /** The case of `SplitJoin` whose first piece is not empty: its first character starts the join. */
  lemma {:induction false} SplitJoinCharHead(parts: seq<string>, sep: char)
    requires |parts| >= 2 && parts[0] != ""
    requires forall i :: 0 <= i < |parts| ==> sep !in parts[i]
    ensures Split(Join(parts, sep), sep) == parts
    decreases |parts|, |parts[0]|, 0
  {
    var p := parts[0];
    var rest := parts[1..];
    var parts' := [p[1..]] + rest;
    assert parts'[1..] == rest;
    assert sep !in p[1..] by {
      assert forall c :: c in p[1..] ==> c in p;
    }
    SplitJoin(parts', sep);
    assert Join(parts, sep) == [p[0]] + Join(parts', sep) by {
      assert Join(parts', sep) == p[1..] + [sep] + Join(rest, sep);
    }
    assert p[0] != sep by { assert p[0] in p; }
    SplitCons(p[0], Join(parts', sep), sep);
    assert p == [p[0]] + p[1..];
    assert parts == [[p[0]] + parts'[0]] + parts'[1..];
  }

  /** A leading non-separator joins the first piece. */
  lemma SplitCons(c: char, t: string, sep: char)
    requires c != sep
    ensures Split([c] + t, sep) == [[c] + Split(t, sep)[0]] + Split(t, sep)[1..]
  {
    assert ([c] + t)[1..] == t;
  }

  /** A leading separator closes an empty first piece. */
  lemma SplitSep(t: string, sep: char)
    ensures Split([sep] + t, sep) == [""] + Split(t, sep)
  {
    assert ([sep] + t)[1..] == t;
  }
}
