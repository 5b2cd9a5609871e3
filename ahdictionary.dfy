/** Extraction of the accepted spellings from a word entry of the catalogue
    (`Word._extract_spellings`), and the entry grammar that the extraction is
    written against. */
module AhDictionary {
  import opened PyStr

  /** What extraction yields: the accepted spellings in entry order, or the
      `IndexError` Python raises when `word_entry[-1]` is taken of an empty string. */
  datatype Extracted = Spellings(spellings: seq<string>) | IndexOutOfRange

  /** A trailing `*` is the star marker: the last two characters (` *`) are cut. */
  function StripMarker(entry: string): (r: string)
    requires |entry| > 0
    ensures r <= entry
    ensures r == entry <==> entry[|entry| - 1] != '*'
    ensures entry[|entry| - 1] == '*' ==> |r| == Max(|entry| - 2, 0)
  {
    if entry[|entry| - 1] == '*' then SliceTo(entry, -2) else entry
  }

  /** A trailing `)` closes a gloss: the entry is cut at the FIRST ` (`. When
      there is none, `find` gives -1 and the slice drops only the last character. */
  function StripGloss(e: string): (r: string)
    requires |e| > 0
    ensures r <= e
    ensures r == e <==> e[|e| - 1] != ')'
    ensures e[|e| - 1] == ')' ==>
      || (OccursAt(e, " (", |r|) && forall k :: k < |r| ==> !OccursAt(e, " (", k))
      || (|r| == |e| - 1 && forall k :: !OccursAt(e, " (", k))
  {
    if e[|e| - 1] == ')' then SliceTo(e, Find(e, " (")) else e
  }

  /** `Word._extract_spellings`. It fails exactly when the entry is empty or
      becomes empty once the marker is cut; otherwise the spellings are never
      empty as a tuple, contain no `/`, and joined with `/` give back the entry
      without its marker and gloss. */
  function ExtractSpellings(entry: string): (r: Extracted)
    ensures r.IndexOutOfRange? <==> |entry| == 0 || |StripMarker(entry)| == 0
    ensures r.Spellings? ==> |r.spellings| >= 1
    ensures r.Spellings? ==> forall k :: 0 <= k < |r.spellings| ==> '/' !in r.spellings[k]
    ensures r.Spellings? ==> Join(r.spellings, '/') == StripGloss(StripMarker(entry))
  {
    if |entry| == 0 then IndexOutOfRange
    else
      var e := StripMarker(entry);
      if |e| == 0 then IndexOutOfRange
      else Spellings(Split(StripGloss(e), '/'))
  }

  /** Appending the marker to an entry that does not already end in `*` does
      not change its spellings (nor its failure, for the empty entry). */
  lemma MarkerIgnored(e: string)
    requires |e| == 0 || e[|e| - 1] != '*'
    ensures ExtractSpellings(e + " *") == ExtractSpellings(e)
  {
    assert (e + " *")[..|e|] == e;
  }

  /** Only one marker is cut: the requirement of MarkerIgnored is needed. */
  lemma MarkerCutOnce()
    ensures ExtractSpellings("x *" + " *") != ExtractSpellings("x *")
  {
    assert StripMarker("x * *") == "x *";
    assert StripMarker("x *") == "x";
    JoinLast(Split("x *", '/'), '/');
    assert '*' in Join(Split("x *", '/'), '/');
  }

  /** ` (` occurs first right after a run of characters without `(`. */
  lemma FindGloss(sp: string, g: string)
    requires '(' !in sp
    ensures Find(sp + " (" + g + ")", " (") == |sp|
  {
    var s := sp + " (" + g + ")";
    assert s[|sp|..|sp| + 2] == " (";
    assert OccursAt(s, " (", |sp|);
    forall k | 0 <= k < |sp| ensures !OccursAt(s, " (", k) {
      assert s[k + 1] != '(' by {
        if k + 1 < |sp| {
          assert s[k + 1] == sp[k + 1];
        } else {
          assert s[k + 1] == ' ';
        }
      }
    }
  }

  /** An entry `SPELLINGS (GLOSS)` whose spellings part has no `(` yields the
      spellings part split on `/`. */
  lemma GlossRemoved(sp: string, g: string)
    requires '(' !in sp
    ensures ExtractSpellings(sp + " (" + g + ")") == Spellings(Split(sp, '/'))
  {
    var s := sp + " (" + g + ")";
    FindGloss(sp, g);
    assert s[..|sp|] == sp;
  }

  /** An entry without `/` that ends in neither `*` nor `)` is its own only spelling. */
  lemma PlainEntry(e: string)
    requires |e| > 0 && '/' !in e
    requires e[|e| - 1] != '*' && e[|e| - 1] != ')'
    ensures ExtractSpellings(e) == Spellings([e])
  {
    SplitJoin([e], '/');
  }

  /** The empty entry, and an entry that is nothing but the marker, fail on `[-1]`. */
  lemma EmptyEntriesFail()
    ensures ExtractSpellings("") == IndexOutOfRange
    ensures ExtractSpellings(" *") == IndexOutOfRange
    ensures ExtractSpellings("*") == IndexOutOfRange
  {
  }

  /** An entry ending in `)` without any ` (` is not rejected: only its last
      character is dropped before the split. */
  lemma UnmatchedParenthesis(e: string)
    requires |e| > 0 && e[|e| - 1] == ')'
    requires forall k :: !OccursAt(e, " (", k)
    ensures ExtractSpellings(e) == Spellings(Split(e[..|e| - 1], '/'))
  {
  }

  /** Empty pieces between separators are kept, not rejected. */
  lemma EmptyPiecesKept()
    ensures ExtractSpellings("a//b") == Spellings(["a", "", "b"])
  {
    SplitJoin(["a", "", "b"], '/');
    assert Join(["a", "", "b"], '/') == "a//b";
  }

  /** A trailing `*` cuts two characters even when no space precedes it. */
  lemma MarkerWithoutSpace()
    ensures ExtractSpellings("ab*") == Spellings(["a"])
    ensures ExtractSpellings("a*") == IndexOutOfRange
  {
    assert StripMarker("ab*") == "a";
    PlainEntry("a");
  }

  // The entry grammar.

  /** A character a SPELLING may contain. */
  predicate SpellingChar(c: char) {
    c != '\n' && c != '/' && c != '(' && c != ')' && c != '*'
  }

  /** A SPELLING: a run of spelling characters, possibly empty. */
  predicate IsSpelling(s: string) {
    forall c :: c in s ==> SpellingChar(c)
  }

  /** A WORD ENTRY in abstract form: its SPELLINGS, an optional parenthesized
      gloss, and whether it carries the star marker. */
  datatype Vocabulary = Vocabulary(spellings: seq<string>, gloss: Option, starred: bool)

  datatype Option = None | Some(value: string)

  predicate WellFormed(v: Vocabulary) {
    && |v.spellings| >= 1
    && (forall k :: 0 <= k < |v.spellings| ==> IsSpelling(v.spellings[k]))
    && (v.gloss.Some? ==> IsSpelling(v.gloss.value))
  }

  /** The entry text of a production without its marker: SPELLINGS or PARENTHESIZED. */
  function Body(v: Vocabulary): string {
    Join(v.spellings, '/') + (if v.gloss.Some? then " (" + v.gloss.value + ")" else "")
  }

  /** The entry text of a production. */
  function Render(v: Vocabulary): string {
    Body(v) + (if v.starred then " *" else "")
  }

  /** The one production whose entry text is empty once the marker is cut:
      a single empty SPELLING and no gloss. */
  predicate EmptyBody(v: Vocabulary) {
    v.spellings == [""] && v.gloss.None?
  }

  /** Every character of the SPELLINGS part of a conforming entry is a
      spelling character or `/`, so it has no `(`; the part is empty exactly
      when the entry's only SPELLING is empty. */
  lemma SpellingsPart(v: Vocabulary)
    requires WellFormed(v)
    ensures forall c :: c in Join(v.spellings, '/') ==> SpellingChar(c) || c == '/'
    ensures |Join(v.spellings, '/')| == 0 <==> v.spellings == [""]
  {
    var sp := Join(v.spellings, '/');
    forall c | c in sp ensures SpellingChar(c) || c == '/' {
      JoinChars(v.spellings, '/', c);
      if c != '/' {
        var k :| 0 <= k < |v.spellings| && c in v.spellings[k];
        assert IsSpelling(v.spellings[k]);
      }
    }
    forall k | 0 <= k < |v.spellings| ensures '/' !in v.spellings[k] {
      assert IsSpelling(v.spellings[k]);
    }
    SplitJoin(v.spellings, '/');
  }

  /** A conforming entry without its marker yields exactly its SPELLINGS,
      except the empty entry, which fails. */
  lemma ExtractBody(v: Vocabulary)
    requires WellFormed(v)
    ensures |Body(v)| == 0 <==> EmptyBody(v)
    ensures |Body(v)| > 0 ==> Body(v)[|Body(v)| - 1] != '*'
    ensures ExtractSpellings(Body(v)) == if EmptyBody(v) then IndexOutOfRange else Spellings(v.spellings)
  {
    var sp := Join(v.spellings, '/');
    SpellingsPart(v);
    forall k | 0 <= k < |v.spellings| ensures '/' !in v.spellings[k] {
      assert IsSpelling(v.spellings[k]);
    }
    SplitJoin(v.spellings, '/');
    if v.gloss.Some? {
      assert Body(v) == sp + " (" + v.gloss.value + ")";
      GlossRemoved(sp, v.gloss.value);
    } else {
      assert Body(v) == sp;
      if |sp| > 0 {
        assert sp[|sp| - 1] in sp;
        assert StripMarker(sp) == sp;
        assert StripGloss(sp) == sp;
      }
    }
  }

  /** Extraction inverts the grammar: every entry the grammar generates
      yields exactly its SPELLINGS, except `""` and `" *"` (one empty
      SPELLING, no gloss), which fail on `[-1]`; no spelling returned contains
      `/`, `(`, `)`, `*` or a newline. */
  lemma ExtractRendered(v: Vocabulary)
    requires WellFormed(v)
    ensures ExtractSpellings(Render(v)) == if EmptyBody(v) then IndexOutOfRange else Spellings(v.spellings)
    ensures var r := ExtractSpellings(Render(v));
            r.Spellings? ==> forall k, c :: 0 <= k < |r.spellings| && c in r.spellings[k] ==> SpellingChar(c)
  {
    ExtractBody(v);
    if v.starred {
      MarkerIgnored(Body(v));
    } else {
      assert Render(v) == Body(v);
    }
    forall k, c | 0 <= k < |v.spellings| && c in v.spellings[k] ensures SpellingChar(c) {
      assert IsSpelling(v.spellings[k]);
    }
  }

  /** Empty SPELLINGs are part of the grammar: `"a/ *"` and `" (g)"` yield an
      empty spelling, while `""` and `" *"` fail. */
  lemma EmptySpellingEntries()
    ensures ExtractSpellings("a/ *") == Spellings(["a", ""])
    ensures ExtractSpellings(" (g)") == Spellings([""])
    ensures ExtractSpellings(Render(Vocabulary([""], None, true))) == IndexOutOfRange
  {
    var v1 := Vocabulary(["a", ""], None, true);
    assert WellFormed(v1);
    assert Render(v1) == "a/ *";
    ExtractRendered(v1);
    var v2 := Vocabulary([""], Some("g"), false);
    assert WellFormed(v2);
    assert Render(v2) == " (g)";
    ExtractRendered(v2);
    var v3 := Vocabulary([""], None, true);
    assert WellFormed(v3);
    ExtractRendered(v3);
  }

  /** An entry with alternate spellings and a gloss. */
  lemma TheaterExample()
    ensures ExtractSpellings("theater/theatre (noun)") == Spellings(["theater", "theatre"])
  {
    var v := Vocabulary(["theater", "theatre"], Some("noun"), false);
    assert WellFormed(v);
    assert Render(v) == "theater/theatre (noun)";
    ExtractRendered(v);
  }

  /** An entry with the star marker. */
  lemma GregariousExample()
    ensures ExtractSpellings("gregarious *") == Spellings(["gregarious"])
  {
    var v := Vocabulary(["gregarious"], None, true);
    assert WellFormed(v);
    assert Render(v) == "gregarious *";
    ExtractRendered(v);
  }
}
