/** What searching, trimming and splitting at whitespace yield, stated through positions of the text alone. */
module WordTheorems {
  import opened Text
  import opened Wrappers

  /** The whitespace among the ASCII characters: tab to carriage return, and the space. */
  predicate Blank(c: char) {
    c as int in {9, 10, 11, 12, 13, 32}
  }

  lemma SpaceIsBlank(c: char)
    ensures IsSpace(c) <==> Blank(c)
  {
  }

  ghost predicate AllBlank(s: string) {
    forall k :: 0 <= k < |s| ==> Blank(s[k])
  }

  ghost predicate NoBlank(s: string) {
    forall k :: 0 <= k < |s| ==> !Blank(s[k])
  }

  // ---- First occurrences ----

  /** The first occurrence of part in s is at i. */
  ghost predicate FirstAt(s: string, part: string, i: nat) {
    OccursAt(s, part, i) && forall j: nat :: j < i ==> !OccursAt(s, part, j)
  }

  lemma OccursLater(s: string, part: string, i: nat, next: nat)
    requires s != "" && next == i + 1
    ensures OccursAt(s, part, next) <==> OccursAt(s[1..], part, i)
  {
    if next + |part| <= |s| {
      assert s[next..next + |part|] == s[1..][i..i + |part|];
    }
  }

  /** Where the first character is not an occurrence, the first one is found in the rest. */
  lemma FirstLater(s: string, part: string, i: nat, next: nat)
    requires s != "" && next == i + 1 && !OccursAt(s, part, 0) && FirstAt(s[1..], part, i)
    ensures FirstAt(s, part, next)
  {
    OccursLater(s, part, i, next);
    forall j: nat | j < next ensures !OccursAt(s, part, j) {
      if j > 0 {
        OccursLater(s, part, j - 1, j);
      }
    }
  }

  lemma NoneLater(s: string, part: string)
    requires s != "" && !OccursAt(s, part, 0) && forall i: nat :: !OccursAt(s[1..], part, i)
    ensures forall i: nat :: !OccursAt(s, part, i)
  {
    forall i: nat ensures !OccursAt(s, part, i) {
      if i > 0 {
        OccursLater(s, part, i - 1, i);
      }
    }
  }

  lemma FirstIsUnique(s: string, part: string, i: nat, j: nat)
    requires FirstAt(s, part, i) && FirstAt(s, part, j)
    ensures i == j
  {
  }

  lemma OccursHere(s: string, part: string, i: nat)
    requires OccursAt(s, part, i) && part != ""
    ensures i < |s| && s[i] == part[0]
  {
    assert s[i] == s[i..i + |part|][0];
  }

  // ---- Words ----

  /** A stretch of s that begins at i and cannot be extended to the left. */
  ghost predicate StartsWord(s: string, i: nat) {
    i < |s| && !Blank(s[i]) && (i == 0 || Blank(s[i - 1]))
  }

  /** s[i..j] is a maximal stretch without whitespace. */
  ghost predicate IsWord(s: string, i: nat, j: nat) {
    && i < j <= |s|
    && (forall k :: i <= k < j ==> !Blank(s[k]))
    && (i == 0 || Blank(s[i - 1]))
    && (j == |s| || Blank(s[j]))
  }

  /** No word reaches over position k. */
  ghost predicate Breaks(s: string, k: nat) {
    k <= |s| && (k == |s| || Blank(s[k]) || (k > 0 && Blank(s[k - 1])))
  }

  lemma WordOfRest(s: string, k: nat, rest: string, i: nat, j: nat, i': nat, j': nat)
    requires Breaks(s, k) && rest == s[k..] && i' == i + k && j' == j + k
    requires IsWord(rest, i, j)
    ensures IsWord(s, i', j') && s[i'..j'] == rest[i..j]
  {
    forall m | i' <= m < j' ensures !Blank(s[m]) {
      assert s[m] == rest[m - k];
    }
    assert i > 0 ==> rest[i - 1] == s[i' - 1];
    assert rest[i] == s[i'];
  }

  lemma RestHasWord(s: string, k: nat, rest: string, i: nat, j: nat, i': nat, j': nat)
    requires Breaks(s, k) && rest == s[k..] && i' == i + k && j' == j + k
    requires IsWord(s, i', j')
    ensures IsWord(rest, i, j)
  {
    forall m | i <= m < j ensures !Blank(rest[m]) {
      assert rest[m] == s[m + k];
    }
    assert i > 0 ==> rest[i - 1] == s[i' - 1];
  }

  /** From one position of a text up to another. */
  datatype Span = Span(start: nat, stop: nat)

  ghost predicate AreWords(s: string, words: seq<string>, spans: seq<Span>) {
    && |words| == |spans|
    && forall k :: 0 <= k < |spans| ==> IsWord(s, spans[k].start, spans[k].stop)
                                        && words[k] == s[spans[k].start..spans[k].stop]
  }

  ghost predicate Ascend(spans: seq<Span>) {
    forall k, l :: 0 <= k < l < |spans| ==> spans[k].stop < spans[l].start
  }

  ghost predicate HoldAllWords(s: string, spans: seq<Span>) {
    forall i, j :: IsWord(s, i, j) ==> Span(i, j) in spans
  }

  /** The words of s lie at these stretches, and there are no others. */
  ghost predicate LieAt(s: string, words: seq<string>, spans: seq<Span>) {
    AreWords(s, words, spans) && Ascend(spans) && HoldAllWords(s, spans)
  }

  function Shifted(spans: seq<Span>, k: nat): (r: seq<Span>)
    ensures |r| == |spans| && forall n :: 0 <= n < |spans| ==> r[n] == Span(spans[n].start + k, spans[n].stop + k)
  {
    seq(|spans|, n requires 0 <= n < |spans| => Span(spans[n].start + k, spans[n].stop + k))
  }

  lemma ShiftedHas(spans: seq<Span>, k: nat, i: nat, j: nat, i': nat, j': nat)
    requires Span(i, j) in spans && i' == i + k && j' == j + k
    ensures Span(i', j') in Shifted(spans, k)
  {
    var n :| 0 <= n < |spans| && spans[n] == Span(i, j);
    assert Shifted(spans, k)[n] == Span(i', j');
  }

  lemma ShiftedAreWords(s: string, k: nat, rest: string, words: seq<string>, spans: seq<Span>)
    requires Breaks(s, k) && rest == s[k..] && AreWords(rest, words, spans)
    ensures AreWords(s, words, Shifted(spans, k))
  {
    var r := Shifted(spans, k);
    forall n | 0 <= n < |r| ensures IsWord(s, r[n].start, r[n].stop) && words[n] == s[r[n].start..r[n].stop] {
      WordOfRest(s, k, rest, spans[n].start, spans[n].stop, r[n].start, r[n].stop);
    }
  }

  /** Words that begin at or after k are found in the rest. */
  lemma ShiftedHold(s: string, k: nat, rest: string, spans: seq<Span>, i: nat, j: nat, i': nat, j': nat)
    requires Breaks(s, k) && rest == s[k..] && HoldAllWords(rest, spans)
    requires IsWord(s, i', j') && i' == i + k && j' == j + k
    ensures Span(i', j') in Shifted(spans, k)
  {
    RestHasWord(s, k, rest, i, j, i', j');
    ShiftedHas(spans, k, i, j, i', j');
  }

  lemma SkippedBlank(s: string, words: seq<string>, spans: seq<Span>)
    requires s != "" && Blank(s[0]) && LieAt(s[1..], words, spans)
    ensures LieAt(s, words, Shifted(spans, 1))
  {
    ShiftedAreWords(s, 1, s[1..], words, spans);
    forall i: nat, j: nat | IsWord(s, i, j) ensures Span(i, j) in Shifted(spans, 1) {
      ShiftedHold(s, 1, s[1..], spans, i - 1, j - 1, i, j);
    }
  }

  lemma {:induction false} WordLengthIs(s: string)
    requires s != "" && !Blank(s[0])
    ensures IsWord(s, 0, WordLength(s))
  {
    SpaceIsBlank(s[0]);
    if |s| > 1 {
      SpaceIsBlank(s[1]);
      if !Blank(s[1]) {
        WordLengthIs(s[1..]);
        var n := WordLength(s[1..]);
        assert forall k :: 1 <= k < n + 1 ==> s[k] == s[1..][k - 1];
        assert n + 1 < |s| ==> s[n + 1] == s[1..][n];
      }
    }
  }

  /** A word that begins before the end of the first word is the first word. */
  lemma FirstWordOnly(s: string, n: nat, i: nat, j: nat)
    requires IsWord(s, 0, n) && IsWord(s, i, j) && i <= n
    ensures i == 0 && j == n
  {
  }

  /** Where a word ends, the next one does not begin. */
  lemma NoWordAtEnd(s: string, n: nat, rest: string, j: nat)
    requires IsWord(s, 0, n) && rest == s[n..]
    ensures !IsWord(rest, 0, j)
  {
    assert rest != "" ==> rest[0] == s[n];
  }

  lemma AscendAfter(s: string, n: nat, rest: string, words: seq<string>, spans: seq<Span>)
    requires IsWord(s, 0, n) && rest == s[n..] && AreWords(rest, words, spans) && Ascend(spans)
    ensures Ascend([Span(0, n)] + Shifted(spans, n))
  {
    forall k | 0 <= k < |spans| ensures spans[k].start > 0 {
      NoWordAtEnd(s, n, rest, spans[k].stop);
    }
    var r := [Span(0, n)] + Shifted(spans, n);
    forall k, l | 0 <= k < l < |r| ensures r[k].stop < r[l].start {
      assert k > 0 ==> spans[k - 1].stop < spans[l - 1].start;
    }
  }

  lemma TookWord(s: string, n: nat, words: seq<string>, spans: seq<Span>)
    requires IsWord(s, 0, n) && LieAt(s[n..], words, spans)
    ensures LieAt(s, [s[..n]] + words, [Span(0, n)] + Shifted(spans, n))
  {
    ShiftedAreWords(s, n, s[n..], words, spans);
    AscendAfter(s, n, s[n..], words, spans);
    HoldAfter(s, n, s[n..], spans);
    AreWordsAfter(s, n, words, Shifted(spans, n));
  }

  lemma AreWordsAfter(s: string, n: nat, words: seq<string>, spans: seq<Span>)
    requires IsWord(s, 0, n) && AreWords(s, words, spans)
    ensures AreWords(s, [s[..n]] + words, [Span(0, n)] + spans)
  {
  }

  lemma HoldAfter(s: string, n: nat, rest: string, spans: seq<Span>)
    requires IsWord(s, 0, n) && rest == s[n..] && HoldAllWords(rest, spans)
    ensures HoldAllWords(s, [Span(0, n)] + Shifted(spans, n))
  {
    forall i: nat, j: nat | IsWord(s, i, j) ensures Span(i, j) in [Span(0, n)] + Shifted(spans, n) {
      if i <= n {
        FirstWordOnly(s, n, i, j);
      } else {
        ShiftedHold(s, n, rest, spans, i - n, j - n, i, j);
      }
    }
  }

  /** Splitting at whitespace yields exactly the maximal stretches without whitespace, in order. */
  lemma {:induction false} WordsAreMaximal(s: string) returns (spans: seq<Span>)
    ensures LieAt(s, Words(s), spans)
    decreases |s|
  {
    spans := [];
    if s != "" {
      SpaceIsBlank(s[0]);
      if Blank(s[0]) {
        spans := WordsAreMaximal(s[1..]);
        SkippedBlank(s, Words(s[1..]), spans);
        spans := Shifted(spans, 1);
      } else {
        WordLengthIs(s);
        var n := WordLength(s);
        spans := WordsAreMaximal(s[n..]);
        TookWord(s, n, Words(s[n..]), spans);
        spans := [Span(0, n)] + Shifted(spans, n);
      }
    }
  }

  /** item stands in s on its own: it has no whitespace, and whitespace or an end of s on either side. */
  ghost predicate ListsAt(s: string, item: string, i: nat) {
    && OccursAt(s, item, i)
    && (i == 0 || Blank(s[i - 1]))
    && (i + |item| == |s| || Blank(s[i + |item|]))
  }

  ghost predicate Lists(s: string, item: string) {
    item != "" && NoBlank(item) && exists i :: ListsAt(s, item, i)
  }

  lemma ListedIsWord(s: string, item: string, i: nat)
    requires item != "" && NoBlank(item) && ListsAt(s, item, i)
    ensures IsWord(s, i, i + |item|) && s[i..i + |item|] == item
  {
    forall k | i <= k < i + |item| ensures !Blank(s[k]) {
      assert s[k] == item[k - i];
    }
  }

  lemma WordIsListed(s: string, i: nat, j: nat)
    requires IsWord(s, i, j)
    ensures s[i..j] != "" && NoBlank(s[i..j]) && ListsAt(s, s[i..j], i)
  {
  }

  /** A text is among the words exactly if it stands there on its own. */
  lemma AmongWordsIff(s: string, item: string)
    ensures item in Words(s) <==> Lists(s, item)
  {
    var spans := WordsAreMaximal(s);
    if item in Words(s) {
      var k :| 0 <= k < |spans| && Words(s)[k] == item;
      WordIsListed(s, spans[k].start, spans[k].stop);
    }
    if Lists(s, item) {
      var i: nat :| ListsAt(s, item, i);
      ListedIsWord(s, item, i);
      var k :| 0 <= k < |spans| && spans[k] == Span(i, i + |item|);
      assert Words(s)[k] == item;
    }
  }

  /** The texts, with a space between any two. */
  function Spaced(texts: seq<string>): string {
    if texts == [] then "" else if |texts| == 1 then texts[0] else texts[0] + " " + Spaced(texts[1..])
  }

  ghost predicate AreSingleWords(texts: seq<string>) {
    forall k :: 0 <= k < |texts| ==> texts[k] != "" && NoBlank(texts[k])
  }

  lemma {:induction false} LengthOfFirstWord(word: string, after: string)
    requires NoBlank(word) && (after == "" || Blank(after[0]))
    ensures WordLength(word + after) == |word|
  {
    if word == "" {
      assert word + after == after;
      if after != "" { SpaceIsBlank(after[0]); }
    } else {
      assert (word + after)[1..] == word[1..] + after;
      SpaceIsBlank(word[0]);
      LengthOfFirstWord(word[1..], after);
    }
  }

  lemma WordsTakeFirst(word: string, after: string)
    requires word != "" && NoBlank(word) && (after == "" || Blank(after[0]))
    ensures Words(word + after) == [word] + Words(after)
  {
    var s := word + after;
    assert s[0] == word[0];
    SpaceIsBlank(word[0]);
    LengthOfFirstWord(word, after);
    assert s[..|word|] == word && s[|word|..] == after;
  }

  /** Words written with spaces between them are split into those words again. */
  lemma {:induction false} WordsOfSpaced(texts: seq<string>)
    requires AreSingleWords(texts)
    ensures Words(Spaced(texts)) == texts
  {
    if |texts| == 1 {
      assert texts[0] + "" == texts[0];
      WordsTakeFirst(texts[0], "");
    } else if |texts| > 1 {
      var after := " " + Spaced(texts[1..]);
      assert after[0] == ' ' && after[1..] == Spaced(texts[1..]);
      WordsTakeFirst(texts[0], after);
      assert texts[0] + after == Spaced(texts);
      WordsOfSpaced(texts[1..]);
    }
  }

  // ---- Trimming ----

  /** s is core with whitespace around it, and core has none at its ends. */
  ghost predicate Surrounds(s: string, lead: string, core: string, trail: string) {
    && s == lead + core + trail && AllBlank(lead) && AllBlank(trail)
    && (core != "" ==> !Blank(core[0]) && !Blank(core[|core| - 1]))
  }

  lemma {:induction false} TrimStartIs(s: string)
    ensures AllBlank(s[..|s| - |TrimStart(s)|])
    ensures TrimStart(s) != "" ==> !Blank(TrimStart(s)[0])
  {
    if s != "" {
      SpaceIsBlank(s[0]);
      if Blank(s[0]) {
        TrimStartIs(s[1..]);
        var n := |s| - |TrimStart(s)|;
        assert s[..n] == [s[0]] + s[1..][..n - 1];
      }
    }
  }

  lemma {:induction false} TrimEndIs(s: string)
    ensures AllBlank(s[|TrimEnd(s)|..])
    ensures TrimEnd(s) != "" ==> !Blank(TrimEnd(s)[|TrimEnd(s)| - 1])
  {
    if s != "" {
      var last := |s| - 1;
      SpaceIsBlank(s[last]);
      if Blank(s[last]) {
        TrimEndIs(s[..last]);
        var n := |TrimEnd(s)|;
        assert s[n..] == s[..last][n..] + [s[last]];
      }
    }
  }

  /** Trimming takes the whitespace at both ends away, and nothing else. */
  lemma TrimIs(s: string) returns (lead: string, trail: string)
    ensures Surrounds(s, lead, Trim(s), trail)
  {
    var mid := TrimStart(s);
    TrimStartIs(s);
    TrimEndIs(mid);
    lead, trail := s[..|s| - |mid|], mid[|TrimEnd(mid)|..];
    TrimmedParts(s, lead, mid, TrimEnd(mid), trail);
  }

  lemma TrimmedParts(s: string, lead: string, mid: string, core: string, trail: string)
    requires |mid| <= |s| && lead == s[..|s| - |mid|] && s[|s| - |mid|..] == mid && AllBlank(lead)
    requires |core| <= |mid| && mid[..|core|] == core && trail == mid[|core|..] && AllBlank(trail)
    requires mid != "" ==> !Blank(mid[0])
    requires core != "" ==> !Blank(core[|core| - 1])
    ensures Surrounds(s, lead, core, trail)
  {
    assert mid == core + trail;
    assert s == lead + mid;
    assert core != "" ==> core[0] == mid[0];
  }

  /** There is one way of taking whitespace from both ends, unless nothing else is there. */
  lemma TrimUnique(s: string, lead: string, core: string, trail: string)
    requires Surrounds(s, lead, core, trail)
    ensures Trim(s) == core
  {
    var lead2, trail2 := TrimIs(s);
    SameSurrounded(s, lead, core, trail, lead2, Trim(s), trail2);
  }

  lemma NonblankInCore(s: string, lead: string, core: string, trail: string, k: nat)
    requires Surrounds(s, lead, core, trail) && k < |s| && !Blank(s[k])
    ensures |lead| <= k < |lead| + |core|
  {
  }

  lemma CoreEndsInOther(s: string, lead: string, core: string, trail: string, lead2: string, core2: string, trail2: string)
    requires Surrounds(s, lead, core, trail) && Surrounds(s, lead2, core2, trail2) && core != ""
    ensures |lead2| <= |lead| && |lead| + |core| <= |lead2| + |core2|
  {
    var i, j := |lead|, |lead| + |core| - 1;
    assert s[i] == core[0] && s[j] == core[|core| - 1];
    NonblankInCore(s, lead2, core2, trail2, i);
    NonblankInCore(s, lead2, core2, trail2, j);
  }

  lemma SameSurrounded(s: string, lead: string, core: string, trail: string, lead2: string, core2: string, trail2: string)
    requires Surrounds(s, lead, core, trail) && Surrounds(s, lead2, core2, trail2)
    ensures core == core2
  {
    if core != "" {
      CoreEndsInOther(s, lead, core, trail, lead2, core2, trail2);
    }
    if core2 != "" {
      CoreEndsInOther(s, lead2, core2, trail2, lead, core, trail);
    }
    assert core == s[|lead|..|lead| + |core|] && core2 == s[|lead2|..|lead2| + |core2|];
  }
}
