/** The product name as it goes into the contact message: every tag
    `<...>` becomes a space, every run of white space becomes one space, and
    the ends are trimmed. */
module ProductName {
  import opened Wrappers

  /** The white-space characters `\s` and `trim` remove (ASCII only). */
  predicate IsSpace(c: char) {
    c == ' ' || c == '\t' || c == '\n' || c == '\r' || c == '\U{0B}' || c == '\U{0C}'
  }

  /** No `<` is followed, anywhere later, by a `>`: nothing left that the tag
      pattern could match. */
  predicate TagFree(s: string) {
    forall i, j :: 0 <= i < j < |s| && s[i] == '<' ==> s[j] != '>'
  }

  /** No two neighbouring characters are both white space. */
  predicate NoDoubleSpace(s: string) {
    forall i :: 0 <= i < |s| - 1 ==> !(IsSpace(s[i]) && IsSpace(s[i + 1]))
  }

  /** Neither end is white space. */
  predicate Trimmed(s: string) {
    s == [] || (!IsSpace(s[0]) && !IsSpace(s[|s| - 1]))
  }

  /** Every character of `r` is a space or occurs in `s`. */
  predicate CharsFrom(r: string, s: string) {
    forall c :: c in r ==> c == ' ' || c in s
  }

  lemma InSuffix(s: string, k: nat, c: char)
    requires k <= |s| && c in s[k..]
    ensures c in s
  {
    var i :| 0 <= i < |s[k..]| && s[k..][i] == c;
    assert s[k + i] == c;
  }

  lemma TagFreeCons(c: char, t: string)
    requires TagFree(t) && (c == '<' ==> '>' !in t)
    ensures TagFree([c] + t)
  {
    var r := [c] + t;
    forall i, j | 0 <= i < j < |r| && r[i] == '<' ensures r[j] != '>' {
      if i == 0 {
        assert r[j] == t[j - 1];
      } else {
        assert r[i] == t[i - 1] && r[j] == t[j - 1];
      }
    }
  }

  lemma TagFreeSuffix(s: string, k: nat)
    requires k <= |s| && TagFree(s)
    ensures TagFree(s[k..])
  {
    var t := s[k..];
    forall i, j | 0 <= i < j < |t| && t[i] == '<' ensures t[j] != '>' {
      assert t[i] == s[k + i] && t[j] == s[k + j];
    }
  }

  /** Index of the first `>` in `s`, if any. */
  function CloseIndex(s: string): Option<nat>
  {
    if s == [] then None
    else if s[0] == '>' then Some(0)
    else match CloseIndex(s[1..])
      case None => None
      case Some(k) => Some(k + 1)
  }

  /** `CloseIndex` finds the first `>`, and finds nothing only when there is
      no `>` at all. */
  lemma {:induction false} CloseIndexFirst(s: string)
    ensures CloseIndex(s).None? <==> '>' !in s
    ensures CloseIndex(s).Some? ==>
              CloseIndex(s).value < |s| && s[CloseIndex(s).value] == '>' && '>' !in s[..CloseIndex(s).value]
  {
    if s != [] && s[0] != '>' {
      CloseIndexFirst(s[1..]);
      assert s == [s[0]] + s[1..];
      if CloseIndex(s).Some? {
        var k := CloseIndex(s[1..]).value;
        assert s[..k + 1] == [s[0]] + s[1..][..k];
      }
    }
  }

  /** `replace(/<[^>]*>/g, ' ')`: a `<` with some `>` after it starts a match
      that ends at the first such `>`, which becomes one space; a `<` without
      any `>` after it is kept. */
  function StripTags(s: string): (r: string)
    ensures |r| <= |s|
    decreases |s|
  {
    if s == [] then []
    else if s[0] == '<' then
      match CloseIndex(s[1..])
      case Some(k) =>
        assert k < |s| - 1 by { CloseIndexFirst(s[1..]); }
        " " + StripTags(s[k + 2..])
      case None => [s[0]] + StripTags(s[1..])
    else [s[0]] + StripTags(s[1..])
  }

  /** No tag survives stripping, and stripping adds no character but spaces. */
  lemma {:induction false} StripTagsTagFree(s: string)
    ensures TagFree(StripTags(s)) && CharsFrom(StripTags(s), s)
    decreases |s|
  {
    if s == [] {
    } else if s[0] == '<' && CloseIndex(s[1..]).Some? {
      CloseIndexFirst(s[1..]);
      var m := CloseIndex(s[1..]).value + 2;
      var tail := StripTags(s[m..]);
      StripTagsTagFree(s[m..]);
      forall c | c in tail && c != ' ' ensures c in s {
        InSuffix(s, m, c);
      }
      TagFreeCons(' ', tail);
    } else {
      CloseIndexFirst(s[1..]);
      var tail := StripTags(s[1..]);
      StripTagsTagFree(s[1..]);
      forall c | c in tail && c != ' ' ensures c in s {
        InSuffix(s, 1, c);
      }
      TagFreeCons(s[0], tail);
    }
  }

  /** `s` without its leading white space. */
  function DropSpaces(s: string): (r: string)
    ensures |r| <= |s|
  {
    if s != [] && IsSpace(s[0]) then DropSpaces(s[1..]) else s
  }

  /** Dropping leading white space keeps a suffix that does not start with
      white space, and everything dropped is white space. */
  lemma {:induction false} DropSpacesShape(s: string)
    ensures DropSpaces(s) == s[|s| - |DropSpaces(s)|..]
    ensures DropSpaces(s) == [] || !IsSpace(DropSpaces(s)[0])
    ensures forall i :: 0 <= i < |s| - |DropSpaces(s)| ==> IsSpace(s[i])
  {
    if s != [] && IsSpace(s[0]) {
      DropSpacesShape(s[1..]);
      assert forall i :: 1 <= i < |s| ==> s[1..][i - 1] == s[i];
    }
  }

  /** `s` without its trailing white space. */
  function DropTrailingSpaces(s: string): (r: string)
    ensures |r| <= |s|
  {
    if s != [] && IsSpace(s[|s| - 1]) then DropTrailingSpaces(s[..|s| - 1]) else s
  }

  /** Dropping trailing white space keeps a prefix that does not end with
      white space, and everything dropped is white space. */
  lemma {:induction false} DropTrailingSpacesShape(s: string)
    ensures DropTrailingSpaces(s) == s[..|DropTrailingSpaces(s)|]
    ensures DropTrailingSpaces(s) == [] || !IsSpace(DropTrailingSpaces(s)[|DropTrailingSpaces(s)| - 1])
    ensures forall i :: |DropTrailingSpaces(s)| <= i < |s| ==> IsSpace(s[i])
  {
    if s != [] && IsSpace(s[|s| - 1]) {
      DropTrailingSpacesShape(s[..|s| - 1]);
    }
  }

  /** `replace(/\s+/g, ' ')`: every maximal run of white space becomes one
      space. */
  function Collapse(s: string): (r: string)
    ensures |r| <= |s|
    decreases |s|
  {
    if s == [] then []
    else if IsSpace(s[0]) then " " + Collapse(DropSpaces(s))
    else [s[0]] + Collapse(s[1..])
  }

  /** A collapsed text has no two neighbouring white-space characters, is
      empty only when its input is, and starts and ends with white space
      exactly when its input does. */
  lemma {:induction false} CollapseShape(s: string)
    ensures NoDoubleSpace(Collapse(s))
    ensures Collapse(s) != [] <==> s != []
    ensures s != [] ==> (IsSpace(Collapse(s)[0]) <==> IsSpace(s[0]))
    ensures s != [] ==> (IsSpace(Collapse(s)[|Collapse(s)| - 1]) <==> IsSpace(s[|s| - 1]))
    decreases |s|
  {
    if s == [] {
    } else if IsSpace(s[0]) {
      var rest := DropSpaces(s);
      DropSpacesShape(s);
      var c := Collapse(rest);
      CollapseShape(rest);
      assert Collapse(s) == " " + c;
      if rest == [] {
        assert IsSpace(s[|s| - 1]);
      } else {
        assert s[|s| - 1] == rest[|rest| - 1];
        assert !IsSpace(c[0]);
      }
    } else {
      var c := Collapse(s[1..]);
      CollapseShape(s[1..]);
      assert Collapse(s) == [s[0]] + c;
    }
  }

  /** How many white-space characters `s` starts with. */
  function LeadingSpaces(s: string): nat {
    |s| - |DropSpaces(s)|
  }

  /** `trim()`: white space removed from both ends. */
  function Trim(s: string): (r: string)
    ensures |r| <= |s|
  {
    DropTrailingSpaces(DropSpaces(s))
  }

  /** Trimming keeps a middle slice of its input and drops only white space
      around it, and the slice neither starts nor ends with white space. */
  lemma TrimShape(s: string)
    ensures Trimmed(Trim(s))
    ensures LeadingSpaces(s) + |Trim(s)| <= |s|
    ensures Trim(s) == s[LeadingSpaces(s)..LeadingSpaces(s) + |Trim(s)|]
    ensures forall k :: 0 <= k < LeadingSpaces(s) ==> IsSpace(s[k])
    ensures forall k :: LeadingSpaces(s) + |Trim(s)| <= k < |s| ==> IsSpace(s[k])
  {
    var front := DropSpaces(s);
    DropSpacesShape(s);
    var r := DropTrailingSpaces(front);
    DropTrailingSpacesShape(front);
    SpacesAround(s, front, r);
  }

  /** A suffix without its leading white space, cut down to a prefix without
      its trailing white space, is a middle slice with white space on both
      sides of it. */
  lemma SpacesAround(s: string, front: string, r: string)
    requires |front| <= |s| && front == s[|s| - |front|..] && (front == [] || !IsSpace(front[0]))
    requires |r| <= |front| && r == front[..|r|] && (r == [] || !IsSpace(r[|r| - 1]))
    requires forall k :: |r| <= k < |front| ==> IsSpace(front[k])
    ensures Trimmed(r)
    ensures r == s[|s| - |front|..|s| - |front| + |r|]
    ensures forall k :: |s| - |front| + |r| <= k < |s| ==> IsSpace(s[k])
  {
    var i := |s| - |front|;
    if r != [] {
      assert r[0] == front[0];
    }
    forall k | i + |r| <= k < |s| ensures IsSpace(s[k]) {
      assert s[k] == front[k - i];
    }
  }

  lemma SliceKeeps(s: string, i: nat, j: nat)
    requires i <= j <= |s|
    ensures NoDoubleSpace(s) ==> NoDoubleSpace(s[i..j])
    ensures TagFree(s) ==> TagFree(s[i..j])
  {
    var t := s[i..j];
    assert forall k :: 0 <= k < |t| ==> t[k] == s[i + k];
  }

  /** A collapse writes no character but single spaces that was not in its
      input, so a tag-free input stays tag-free. */
  lemma {:induction false} CollapseTagFree(s: string)
    requires TagFree(s)
    ensures TagFree(Collapse(s)) && CharsFrom(Collapse(s), s)
    decreases |s|
  {
    if s == [] {
    } else if IsSpace(s[0]) {
      var rest := DropSpaces(s);
      DropSpacesShape(s);
      TagFreeSuffix(s, |s| - |rest|);
      CollapseTagFree(rest);
      var c := Collapse(rest);
      assert Collapse(s) == " " + c;
      TagFreeCons(' ', c);
      forall ch | ch in c && ch != ' ' ensures ch in s {
        InSuffix(s, |s| - |rest|, ch);
      }
    } else {
      var rest := s[1..];
      TagFreeSuffix(s, 1);
      CollapseTagFree(rest);
      var c := Collapse(rest);
      assert Collapse(s) == [s[0]] + c;
      forall ch | ch in c && ch != ' ' ensures ch in s {
        InSuffix(s, 1, ch);
      }
      TagFreeCons(s[0], c);
    }
  }

  /** `replace(/<[^>]*>/g, ' ').replace(/\s+/g, ' ').trim()`: the name as it
      appears in the contact message. */
  function Clean(name: string): (r: string)
    ensures |r| <= |name|
  {
    Trim(Collapse(StripTags(name)))
  }

  /** A cleaned name has no white space at either end, no two white-space
      characters in a row, and no tag left in it. */
  lemma CleanShape(name: string)
    ensures Trimmed(Clean(name)) && NoDoubleSpace(Clean(name)) && TagFree(Clean(name))
  {
    var stripped := StripTags(name);
    StripTagsTagFree(name);
    var collapsed := Collapse(stripped);
    assert TagFree(collapsed) by { CollapseTagFree(stripped); }
    assert NoDoubleSpace(collapsed) by { CollapseShape(stripped); }
    var clean := Trim(collapsed);
    TrimShape(collapsed);
    var i := LeadingSpaces(collapsed);
    SliceKeeps(collapsed, i, i + |clean|);
  }

  /** Plain text without tags passes through tag stripping unchanged. */
  lemma {:induction false} StripPlain(a: string, b: string)
    requires '<' !in a
    ensures StripTags(a + b) == a + StripTags(b)
    decreases |a|
  {
    if a != [] {
      var ab := a + b;
      assert ab[0] == a[0] && ab[1..] == a[1..] + b;
      assert '<' !in a[1..];
      assert StripTags(ab) == [a[0]] + StripTags(ab[1..]);
      StripPlain(a[1..], b);
      assert [a[0]] + (a[1..] + StripTags(b)) == a + StripTags(b);
    } else {
      assert a + b == b;
    }
  }

  /** A complete tag is replaced by one space. */
  lemma StripTag(t: string, b: string)
    requires IsTag(t)
    ensures StripTags(t + b) == " " + StripTags(b)
  {
    var s := t + b;
    assert s[0] == '<';
    assert s[1..][|t| - 2] == '>';
    assert s[1..][..|t| - 2] == t[..|t| - 1][1..];
    CloseIndexFirst(s[1..]);
    var k := CloseIndex(s[1..]).value;
    assert k == |t| - 2;
    assert s[k + 2..] == b;
  }

  /** `t` is one complete tag: `<`, no `>`, then `>`. */
  predicate IsTag(t: string) {
    |t| >= 2 && t[0] == '<' && t[|t| - 1] == '>' && '>' !in t[..|t| - 1]
  }

  predicate NoSpace(a: string) {
    forall i :: 0 <= i < |a| ==> !IsSpace(a[i])
  }

  predicate AllSpace(a: string) {
    forall i :: 0 <= i < |a| ==> IsSpace(a[i])
  }

  /** Text without white space passes through collapsing unchanged. */
  lemma {:induction false} CollapsePlain(a: string, b: string)
    requires NoSpace(a)
    ensures Collapse(a + b) == a + Collapse(b)
    decreases |a|
  {
    if a != [] {
      var ab := a + b;
      assert ab[0] == a[0] && ab[1..] == a[1..] + b;
      assert !IsSpace(ab[0]);
      assert NoSpace(a[1..]) by {
        forall i | 0 <= i < |a| - 1 ensures !IsSpace(a[1..][i]) { assert a[1..][i] == a[i + 1]; }
      }
      assert Collapse(ab) == [a[0]] + Collapse(ab[1..]);
      CollapsePlain(a[1..], b);
      assert [a[0]] + (a[1..] + Collapse(b)) == a + Collapse(b);
    } else {
      assert a + b == b;
    }
  }

  /** A run of white space before a non-space becomes one space. */
  lemma {:induction false} DropRun(a: string, b: string)
    requires AllSpace(a) && (b == [] || !IsSpace(b[0]))
    ensures DropSpaces(a + b) == b
    decreases |a|
  {
    if a != [] {
      assert (a + b)[0] == a[0] && (a + b)[1..] == a[1..] + b;
      assert AllSpace(a[1..]) by {
        forall i | 0 <= i < |a| - 1 ensures IsSpace(a[1..][i]) { assert a[1..][i] == a[i + 1]; }
      }
      DropRun(a[1..], b);
    }
  }

  lemma CollapseRun(a: string, b: string)
    requires a != [] && AllSpace(a) && (b == [] || !IsSpace(b[0]))
    ensures Collapse(a + b) == " " + Collapse(b)
  {
    DropRun(a, b);
  }

  /** Each word followed by its gap. */
  function Interleave(words: seq<string>, gaps: seq<string>): string
    requires |words| == |gaps|
  {
    if words == [] then [] else words[0] + gaps[0] + Interleave(words[1..], gaps[1..])
  }

  /** Each word followed by one space. */
  function SpaceAfterEach(words: seq<string>): string {
    if words == [] then [] else words[0] + " " + SpaceAfterEach(words[1..])
  }

  /** Collapsing words separated by white-space runs leaves one space after
      each word. */
  lemma {:induction false} CollapseInterleave(words: seq<string>, gaps: seq<string>)
    requires |words| == |gaps|
    requires forall i :: 0 <= i < |words| ==> words[i] != [] && NoSpace(words[i])
    requires forall i :: 0 <= i < |gaps| ==> gaps[i] != [] && AllSpace(gaps[i])
    ensures Collapse(Interleave(words, gaps)) == SpaceAfterEach(words)
    decreases |words|
  {
    if words != [] {
      var rest := Interleave(words[1..], gaps[1..]);
      CollapseInterleave(words[1..], gaps[1..]);
      assert rest != [] ==> rest[0] == words[1][0];
      CollapseRun(gaps[0], rest);
      CollapsePlain(words[0], gaps[0] + rest);
      assert words[0] + gaps[0] + rest == words[0] + (gaps[0] + rest);
      assert words[0] + (" " + SpaceAfterEach(words[1..])) == words[0] + " " + SpaceAfterEach(words[1..]);
    }
  }

  /** Trimming removes one trailing space from text with non-space ends. */
  lemma TrimTrailingSpace(w: string)
    requires w != [] && !IsSpace(w[0]) && !IsSpace(w[|w| - 1])
    ensures Trim(w + " ") == w
  {
    var s := w + " ";
    assert s[0] == w[0] && s[|s| - 1] == ' ';
    assert DropSpaces(s) == s;
    assert s[..|s| - 1] == w;
    assert DropTrailingSpaces(s) == DropTrailingSpaces(w) == w;
  }


  /** Interleaving splits over a concatenation of word lists. */
  lemma {:induction false} InterleaveAppend(w1: seq<string>, g1: seq<string>, w2: seq<string>, g2: seq<string>)
    requires |w1| == |g1| && |w2| == |g2|
    ensures Interleave(w1 + w2, g1 + g2) == Interleave(w1, g1) + Interleave(w2, g2)
    decreases |w1|
  {
    if w1 == [] {
      assert w1 + w2 == w2 && g1 + g2 == g2;
    } else {
      assert (w1 + w2)[1..] == w1[1..] + w2 && (g1 + g2)[1..] == g1[1..] + g2;
      InterleaveAppend(w1[1..], g1[1..], w2, g2);
    }
  }

  /** Spacing splits over a concatenation of word lists. */
  lemma {:induction false} SpaceAfterEachAppend(w1: seq<string>, w2: seq<string>)
    ensures SpaceAfterEach(w1 + w2) == SpaceAfterEach(w1) + SpaceAfterEach(w2)
    decreases |w1|
  {
    if w1 == [] {
      assert w1 + w2 == w2;
    } else {
      assert (w1 + w2)[1..] == w1[1..] + w2;
      SpaceAfterEachAppend(w1[1..], w2);
    }
  }
}
