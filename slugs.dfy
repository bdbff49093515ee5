/** The two client-side slug generators: the organization form's and the project form's. */
module Slugs {
  import opened Text
  import opened Seqs
  import opened Wrappers

  /** `replace(|c| !c.is_alphanumeric() && c != '-', "-")`, one character at a time. */
  function SlugChar(c: char): (r: char)
    ensures IsAlphanumeric(r) || r == '-'
  {
    if IsAlphanumeric(c) || c == '-' then c else '-'
  }

  function Hyphenate(s: string): (r: string)
    ensures |r| == |s|
    ensures forall i :: 0 <= i < |s| ==> r[i] == SlugChar(s[i])
  {
    if s == [] then [] else [SlugChar(s[0])] + Hyphenate(s[1..])
  }

  /** `.filter(|s| !s.is_empty())` on the split pieces. */
  function NonEmpty(parts: seq<string>): (r: seq<string>)
    ensures forall i :: 0 <= i < |r| ==> r[i] != "" && r[i] in parts
    ensures forall p :: p in parts && p != "" ==> p in r
  {
    Filter((p: string) => p != "", parts)
  }

  /** The organization form's generator: lowercase, non-slug characters to '-', then the hyphen runs collapsed and trimmed. */
  function OrganizationSlug(name: string): string {
    Join(NonEmpty(Split(Hyphenate(Lower(name)), '-')), '-')
  }

  /** A lowercase slug character. */
  predicate IsLowerSlugChar(c: char) {
    ('a' <= c <= 'z') || IsAsciiDigit(c) || c == '-'
  }

  /** No empty segment: no leading or trailing hyphen, no two hyphens in a row. */
  predicate WellFormedSlug(s: string) {
    && (forall i :: 0 <= i < |s| ==> IsLowerSlugChar(s[i]))
    && (s != "" ==> s[0] != '-' && s[|s| - 1] != '-')
    && (forall i :: 0 <= i < |s| - 1 ==> !(s[i] == '-' && s[i + 1] == '-'))
  }

  /** Joining non-empty hyphen-free lowercase pieces with '-' gives a well-formed slug. */
  lemma {:induction false} JoinWellFormed(parts: seq<string>)
    requires forall i :: 0 <= i < |parts| ==> parts[i] != "" && '-' !in parts[i]
    requires forall i, j :: 0 <= i < |parts| && 0 <= j < |parts[i]| ==> IsLowerSlugChar(parts[i][j])
    ensures WellFormedSlug(Join(parts, '-'))
  {
    if |parts| > 1 {
      var rest := parts[1..];
      JoinWellFormed(rest);
      var tail := Join(rest, '-');
      var s := Join(parts, '-');
      assert s == parts[0] + ['-'] + tail;
      assert tail != "" by {
        assert Join(rest, '-')[..|rest[0]|] == rest[0] by { JoinStartsWith(rest); }
      }
      forall i | 0 <= i < |s| ensures IsLowerSlugChar(s[i]) {
        if i < |parts[0]| {
          assert s[i] == parts[0][i];
        } else if i > |parts[0]| {
          assert s[i] == tail[i - |parts[0]| - 1];
        }
      }
      forall i | 0 <= i < |s| - 1 ensures !(s[i] == '-' && s[i + 1] == '-') {
        if i < |parts[0]| {
          assert s[i] == parts[0][i];
          assert parts[0][i] in parts[0];
        } else if i > |parts[0]| {
          assert s[i] == tail[i - |parts[0]| - 1];
        }
      }
      assert s[0] == parts[0][0];
      assert s[0] in parts[0];
    } else if |parts| == 1 {
      forall i | 0 <= i < |parts[0]| - 1 ensures !(parts[0][i] == '-' && parts[0][i + 1] == '-') {
        assert parts[0][i] in parts[0];
      }
      assert parts[0][0] in parts[0];
    }
  }

  /** A join of several pieces starts with the first piece. */
  lemma JoinStartsWith(parts: seq<string>)
    requires |parts| >= 1
    ensures |parts[0]| <= |Join(parts, '-')| && Join(parts, '-')[..|parts[0]|] == parts[0]
  {
  }

  /** Lowercasing then hyphenating leaves only lowercase slug characters. */
  lemma HyphenatedLower(name: string)
    ensures forall i :: 0 <= i < |Hyphenate(Lower(name))| ==> IsLowerSlugChar(Hyphenate(Lower(name))[i])
  {
  }

  /**
   * The generated organization slug is well formed: only slug characters, lowercase,
   * no leading, trailing or doubled hyphen; so a non-empty one passes the form's check.
   */
  lemma OrganizationSlugWellFormed(name: string)
    ensures WellFormedSlug(OrganizationSlug(name))
    ensures AllSlugChars(OrganizationSlug(name))
  {
    var h := Hyphenate(Lower(name));
    var pieces := Split(h, '-');
    var kept := NonEmpty(pieces);
    HyphenatedLower(name);
    forall i, j | 0 <= i < |kept| && 0 <= j < |kept[i]| ensures IsLowerSlugChar(kept[i][j]) {
      var k :| 0 <= k < |pieces| && pieces[k] == kept[i];
      PieceChars(pieces, k, h);
    }
    JoinWellFormed(kept);
  }

  /** Each character of a split piece occurs in the split string. */
  lemma PieceChars(pieces: seq<string>, k: nat, h: string)
    requires pieces == Split(h, '-') && k < |pieces|
    requires forall i :: 0 <= i < |h| ==> IsLowerSlugChar(h[i])
    ensures forall j :: 0 <= j < |pieces[k]| ==> IsLowerSlugChar(pieces[k][j])
  {
    forall j | 0 <= j < |pieces[k]| ensures IsLowerSlugChar(pieces[k][j]) {
      JoinContains(pieces, k, j);
    }
  }

  /** A character of a piece is a character of the join. */
  lemma {:induction false} JoinContains(pieces: seq<string>, k: nat, j: nat)
    requires k < |pieces| && j < |pieces[k]|
    ensures pieces[k][j] in Join(pieces, '-')
  {
    if |pieces| > 1 {
      var s := Join(pieces, '-');
      assert s == pieces[0] + ['-'] + Join(pieces[1..], '-');
      if k == 0 {
        assert s[j] == pieces[0][j];
      } else {
        JoinContains(pieces[1..], k - 1, j);
        assert pieces[1..][k - 1] == pieces[k];
      }
    }
  }

  /** A well-formed slug is its own generated slug: the generator is idempotent. */
  lemma OrganizationSlugIdempotent(name: string)
    ensures OrganizationSlug(OrganizationSlug(name)) == OrganizationSlug(name)
  {
    var s := OrganizationSlug(name);
    OrganizationSlugWellFormed(name);
    WellFormedFixed(s);
  }

  /** A well-formed slug passes through the generator unchanged. */
  lemma WellFormedFixed(s: string)
    requires WellFormedSlug(s)
    ensures OrganizationSlug(s) == s
  {
    assert Lower(s) == s by {
      forall i | 0 <= i < |s| ensures Lower(s)[i] == s[i] {
        assert IsLowerSlugChar(s[i]);
      }
    }
    assert Hyphenate(s) == s by {
      forall i | 0 <= i < |s| ensures Hyphenate(s)[i] == s[i] {
        assert IsLowerSlugChar(s[i]);
      }
    }
    var pieces := Split(s, '-');
    assert OrganizationSlug(s) == Join(NonEmpty(pieces), '-');
    if s == "" {
      assert pieces == [""];
      assert NonEmpty(pieces) == [];
    } else {
      PiecesNonEmpty(s);
      NonEmptyKeepsAll(pieces);
    }
  }

  /** Splitting a non-empty well-formed slug at '-' gives no empty piece. */
  lemma {:induction false} PiecesNonEmpty(s: string)
    requires WellFormedSlug(s) && s != ""
    ensures forall i :: 0 <= i < |Split(s, '-')| ==> Split(s, '-')[i] != ""
  {
    var pieces := Split(s, '-');
    forall i | 0 <= i < |pieces| ensures pieces[i] != "" {
      if pieces[i] == "" {
        EmptyPiece(s, i);
      }
    }
  }

  /** An empty piece comes from a leading or trailing hyphen, or from two in a row. */
  lemma {:induction false} EmptyPiece(s: string, i: nat)
    requires s != "" && i < |Split(s, '-')| && Split(s, '-')[i] == ""
    ensures s[0] == '-' || s[|s| - 1] == '-' || exists k :: 0 <= k < |s| - 1 && s[k] == '-' && s[k + 1] == '-'
    decreases |s|, 1
  {
    if s[0] != '-' {
      var rest := Split(s[1..], '-');
      assert i >= 1 && rest[i] == "" by {
        assert Split(s, '-') == [[s[0]] + rest[0]] + rest[1..];
      }
      if s[1..] != "" {
        if s[1] == '-' {
          EmptyPieceAfterHyphen(s, i);
        } else {
          EmptyPiece(s[1..], i);
          if s[|s| - 1] != '-' {
            var k :| 0 <= k < |s[1..]| - 1 && s[1..][k] == '-' && s[1..][k + 1] == '-';
            assert s[k + 1] == '-' && s[k + 2] == '-';
          }
        }
      }
    }
  }

  /** The case of `EmptyPiece` where the second character is a hyphen. */
  lemma {:induction false} EmptyPieceAfterHyphen(s: string, i: nat)
    requires |s| >= 2 && s[0] != '-' && s[1] == '-' && 1 <= i < |Split(s[1..], '-')|
    requires Split(s[1..], '-')[i] == ""
    ensures s[|s| - 1] == '-' || exists k :: 0 <= k < |s| - 1 && s[k] == '-' && s[k + 1] == '-'
    decreases |s|, 0
  {
    var t := s[2..];
    assert Split(s[1..], '-') == [""] + Split(t, '-') by {
      assert s[1..][1..] == t;
    }
    if t != "" && t[0] != '-' {
      EmptyPiece(t, i - 1);
      if t[|t| - 1] != '-' {
        var k :| 0 <= k < |t| - 1 && t[k] == '-' && t[k + 1] == '-';
        assert s[k + 2] == '-' && s[k + 3] == '-';
      }
    } else if t != "" {
      assert s[1] == '-' && s[2] == '-';
    }
  }

  /** Dropping empty pieces from a list with none leaves it as it is. */
  lemma {:induction false} NonEmptyKeepsAll(pieces: seq<string>)
    requires forall i :: 0 <= i < |pieces| ==> pieces[i] != ""
    ensures NonEmpty(pieces) == pieces
  {
    if pieces != [] {
      NonEmptyKeepsAll(pieces[1..]);
      assert pieces == [pieces[0]] + pieces[1..];
      FilterConcat((p: string) => p != "", [pieces[0]], pieces[1..]);
    }
  }

  /** `.replace(" ", "-")`. */
  function SpacesToHyphens(s: string): (r: string)
    ensures |r| == |s|
    ensures forall i :: 0 <= i < |s| ==> r[i] == if s[i] == ' ' then '-' else s[i]
  {
    if s == [] then [] else [if s[0] == ' ' then '-' else s[0]] + SpacesToHyphens(s[1..])
  }

  predicate IsSlugChar(c: char) {
    IsAlphanumeric(c) || c == '-'
  }

  /**
   * The project form's auto-slug, run only when the name is non-empty (None: the slug field
   * is left as it is): lowercase, each space to '-', then every other non-slug character dropped.
   */
  function ProjectAutoSlug(name: string): (r: Option<string>)
    ensures r.None? <==> name == ""
    ensures r.Some? ==> LowerSlug(r.value) && |r.value| <= |name|
  {
    if name == "" then None
    else Some(Filter(IsSlugChar, SpacesToHyphens(Lower(name))))
  }

  /** Slug characters with no upper-case letter: the project generator's output alphabet. */
  predicate LowerSlug(s: string) {
    AllSlugChars(s) && forall i :: 0 <= i < |s| ==> !('A' <= s[i] <= 'Z')
  }

  /** A non-empty name already in the output alphabet is its own auto-slug. */
  lemma ProjectAutoSlugFixed(s: string)
    requires s != "" && LowerSlug(s)
    ensures ProjectAutoSlug(s) == Some(s)
  {
    assert Lower(s) == s;
    assert SpacesToHyphens(s) == s;
    FilterAll(IsSlugChar, s);
  }

  /** Running the generator on its own non-empty output changes nothing. */
  lemma ProjectAutoSlugIdempotent(name: string)
    requires ProjectAutoSlug(name).Some? && ProjectAutoSlug(name).value != ""
    ensures ProjectAutoSlug(ProjectAutoSlug(name).value) == ProjectAutoSlug(name)
  {
    ProjectAutoSlugFixed(ProjectAutoSlug(name).value);
  }

  lemma LowerExample()
    ensures Lower("a  b") == "a  b"
  {
    assert Lower("a  b")[0] == 'a' && Lower("a  b")[1] == ' ';
    assert Lower("a  b")[2] == ' ' && Lower("a  b")[3] == 'b';
  }

  lemma HyphenateExample()
    ensures Hyphenate("a  b") == "a--b"
  {
    var h := Hyphenate("a  b");
    assert h[0] == 'a' && h[1] == '-' && h[2] == '-' && h[3] == 'b';
  }

  lemma KeepExample()
    ensures Filter(IsSlugChar, "a--b") == "a--b"
  {
    assert "a--b" == ['a'] + "--b";
    assert "--b" == ['-'] + "-b";
    assert "-b" == ['-'] + "b";
    assert "b" == ['b'] + "";
  }

  lemma SplitExample()
    ensures Split("a--b", '-') == ["a", "", "b"]
  {
    assert Join(["a", "", "b"], '-') == "a--b" by {
      assert Join(["", "b"], '-') == "" + ['-'] + "b";
      assert ["a", "", "b"][1..] == ["", "b"];
    }
    SplitJoin(["a", "", "b"], '-');
  }

  lemma NonEmptyExample()
    ensures NonEmpty(["a", "", "b"]) == ["a", "b"]
  {
    assert ["a", "", "b"] == ["a"] + ["", "b"];
    assert ["", "b"] == [""] + ["b"];
    assert ["b"] == ["b"] + [];
  }

  /** The project generator keeps every hyphen a space made: "a  b" gives "a--b". */
  lemma ProjectSlugKeepsRuns()
    ensures ProjectAutoSlug("a  b") == Some("a--b")
  {
    var lowered := Lower("a  b");
    assert lowered == "a  b" by { LowerExample(); }
    var spaced := SpacesToHyphens(lowered);
    assert spaced == "a--b" by {
      assert spaced[0] == 'a' && spaced[1] == '-' && spaced[2] == '-' && spaced[3] == 'b';
    }
    assert Filter(IsSlugChar, spaced) == "a--b" by { KeepExample(); }
  }

  /** The organization generator collapses the same run: "a  b" gives "a-b". */
  lemma OrganizationSlugCollapsesRuns()
    ensures OrganizationSlug("a  b") == "a-b"
  {
    var lowered := Lower("a  b");
    assert lowered == "a  b" by { LowerExample(); }
    var hyphenated := Hyphenate(lowered);
    assert hyphenated == "a--b" by { HyphenateExample(); }
    var pieces := Split(hyphenated, '-');
    assert pieces == ["a", "", "b"] by { SplitExample(); }
    var kept := NonEmpty(pieces);
    assert kept == ["a", "b"] by { NonEmptyExample(); }
    assert Join(kept, '-') == "a-b" by {
      assert kept[1..] == ["b"];
    }
  }
}
