/** Whether a text mentions a name: the grounding of what a model says about places. */
module LocationEvidence {

  /** What the Unicode tables say. `key` normalizes names for the catalog and `evidence` texts for the search;
  `size` is the length in bytes. */
  datatype Unicode = Unicode(key: string -> string, evidence: string -> string, letterOrDigit: char -> bool, size: string -> nat)

  /** A hyphen joins the parts of a compound name. */
  predicate WordChar(u: Unicode, c: char) { u.letterOrDigit(c) || c == '-' }

  predicate OccursAt(text: string, name: string, p: nat) { p + |name| <= |text| && text[p..p + |name|] == name }

  /** An occurrence between characters that are no part of a word. */
  predicate StandsAt(u: Unicode, text: string, name: string, p: nat) {
    && OccursAt(text, name, p)
    && (p > 0 ==> !WordChar(u, text[p - 1])) && (p + |name| < |text| ==> !WordChar(u, text[p + |name|]))
  }

  /** The search goes on behind an occurrence that is part of a longer word. */
  predicate FoundFrom(u: Unicode, text: string, name: string, offset: nat)
    requires |name| > 0
    decreases |text| - offset
  {
    offset + |name| <= |text| &&
    if OccursAt(text, name, offset) then StandsAt(u, text, name, offset) || FoundFrom(u, text, name, offset + |name|)
    else FoundFrom(u, text, name, offset + 1)
  }

  predicate Contains(u: Unicode, text: string, name: string) {
    |u.evidence(name)| > 0 && FoundFrom(u, u.evidence(text), u.evidence(name), 0)
  }

  method NextOccurrence(text: string, name: string, offset: nat) returns (index: nat)
    requires |name| > 0
    ensures offset <= index && forall p | offset <= p < index :: !OccursAt(text, name, p)
    ensures index + |name| <= |text| ==> OccursAt(text, name, index)
  {
    index := offset;
    while index + |name| <= |text| && text[index..index + |name|] != name
      invariant offset <= index && forall p | offset <= p < index :: !OccursAt(text, name, p)
    {
      index := index + 1;
    }
  }

  lemma {:induction false} FoundFromNext(u: Unicode, text: string, name: string, offset: nat, index: nat)
    requires |name| > 0 && offset <= index && forall p | offset <= p < index :: !OccursAt(text, name, p)
    ensures FoundFrom(u, text, name, offset) == FoundFrom(u, text, name, index)
    decreases index - offset
  {
    if offset < index { FoundFromNext(u, text, name, offset + 1, index); }
  }

  method ContainsName(u: Unicode, text: string, name: string) returns (found: bool)
    requires |u.evidence(name)| > 0
    ensures found == Contains(u, text, name)
    ensures found ==> Stands(u, u.evidence(text), u.evidence(name))
    ensures Stands(u, u.evidence(text), u.evidence(name)) && (forall d: nat :: !OverlapsItself(u, u.evidence(name), d)) ==> found
  {
    FoundExactly(u, text, name);
    var t, n := u.evidence(text), u.evidence(name);
    var offset := 0;
    while offset <= |t|
      invariant FoundFrom(u, t, n, offset) == FoundFrom(u, t, n, 0)
      decreases |t| + |n| - offset
    {
      var index := NextOccurrence(t, n, offset);
      FoundFromNext(u, t, n, offset, index);
      if index + |n| > |t| {
        return false;
      }
      if (index == 0 || !WordChar(u, t[index - 1])) && (index + |n| == |t| || !WordChar(u, t[index + |n|])) {
        return true;
      }
      offset := index + |n|;
    }
    found := false;
  }

  /** The name is written there, with nothing before and after it that is part of a word. */
  ghost predicate IsWordAt(u: Unicode, text: string, name: string, p: nat) {
    && p + |name| <= |text| && (forall k | 0 <= k < |name| :: text[p + k] == name[k])
    && (p > 0 ==> text[p - 1] != '-' && !u.letterOrDigit(text[p - 1]))
    && (p + |name| < |text| ==> text[p + |name|] != '-' && !u.letterOrDigit(text[p + |name|]))
  }

  lemma WordIs(u: Unicode, text: string, name: string, p: nat)
    ensures IsWordAt(u, text, name, p) <==> StandsAt(u, text, name, p)
  {
    if p + |name| <= |text| {
      var part := text[p..p + |name|];
      assert forall k | 0 <= k < |name| :: part[k] == text[p + k];
      if forall k | 0 <= k < |name| :: text[p + k] == name[k] { assert part == name; }
    }
  }

  /** A name that is found stands somewhere in the text as a word of its own. */
  lemma {:induction false} FoundNamesStand(u: Unicode, text: string, name: string, offset: nat) returns (p: nat)
    requires |name| > 0 && FoundFrom(u, text, name, offset)
    ensures IsWordAt(u, text, name, p)
    decreases |text| - offset
  {
    if StandsAt(u, text, name, offset) {
      p := offset;
      WordIs(u, text, name, p);
    } else if OccursAt(text, name, offset) {
      p := FoundNamesStand(u, text, name, offset + |name|);
    } else {
      p := FoundNamesStand(u, text, name, offset + 1);
    }
  }

  // ----- what the search misses -----

  ghost predicate Stands(u: Unicode, text: string, name: string) { exists p :: IsWordAt(u, text, name, p) }

  /** The name overlaps itself, and the second copy begins behind a character that is no part of a word. */
  ghost predicate OverlapsItself(u: Unicode, name: string, d: nat) {
    0 < d < |name| && name[d..] == name[..|name| - d] && name[d - 1] != '-' && !u.letterOrDigit(name[d - 1])
  }

  lemma {:induction false} StandingNamesAreFound(u: Unicode, text: string, name: string, offset: nat, p: nat)
    requires |name| > 0 && offset <= p && StandsAt(u, text, name, p)
    requires forall d | 0 < d < |name| :: !OverlapsItself(u, name, d)
    ensures FoundFrom(u, text, name, offset)
    decreases |text| - offset
  {
    if !OccursAt(text, name, offset) {
      StandingNamesAreFound(u, text, name, offset + 1, p);
    } else if p >= offset + |name| {
      StandingNamesAreFound(u, text, name, offset + |name|, p);
    } else if p > offset {
      Overlap(u, text, name, offset, p);
    }
  }

  lemma Overlap(u: Unicode, text: string, name: string, offset: nat, p: nat)
    requires OccursAt(text, name, offset) && StandsAt(u, text, name, p) && offset < p < offset + |name|
    ensures OverlapsItself(u, name, p - offset)
  {
    var d := p - offset;
    assert name[d - 1] == text[p - 1];
    forall k | 0 <= k < |name| - d ensures name[d..][k] == name[..|name| - d][k] {
      assert name[d + k] == text[offset + (d + k)] && name[k] == text[p + k];
    }
  }

  /** A copy of the name inside a word hides the one that overlaps it. */
  lemma OverlapIsMissed(u: Unicode, name: string, d: nat) returns (text: string)
    requires OverlapsItself(u, name, d)
    ensures Stands(u, text, name) && !FoundFrom(u, text, name, 0)
  {
    text := ['-'] + name[..d] + name;
    WordAtEnd(u, text, name, d);
    HiddenInWord(u, text, name, d);
  }

  lemma WordAtEnd(u: Unicode, text: string, name: string, d: nat)
    requires OverlapsItself(u, name, d) && text == ['-'] + name[..d] + name
    ensures Stands(u, text, name)
  {
    assert text[d] == name[d - 1];
    assert IsWordAt(u, text, name, 1 + d);
  }

  lemma HiddenInWord(u: Unicode, text: string, name: string, d: nat)
    requires OverlapsItself(u, name, d) && text == ['-'] + name[..d] + name
    ensures !FoundFrom(u, text, name, 0)
  {
    assert text[1..1 + |name|] == name by {
      assert name[..d] + name[d..] == name;
      assert text[1..1 + |name|] == name[..d] + name[..|name| - d];
    }
    assert !OccursAt(text, name, 0) by {
      if OccursAt(text, name, 0) { AllHyphens(text, name, d - 1); }
    }
    assert text[0] == '-' && !StandsAt(u, text, name, 1);
    assert !FoundFrom(u, text, name, 1 + |name|);
    assert !FoundFrom(u, text, name, 1);
  }

  /** A name that begins at two neighbouring places repeats one character. */
  lemma {:induction false} AllHyphens(text: string, name: string, k: nat)
    requires OccursAt(text, name, 0) && OccursAt(text, name, 1) && k < |name| && text[0] == '-'
    ensures name[k] == '-'
  {
    assert name[k] == text[k];
    if k > 0 {
      AllHyphens(text, name, k - 1);
      assert name[k - 1] == text[1 + (k - 1)];
    }
  }

  /** A name is found in every text where it stands as a word of its own exactly if it does not overlap itself. */
  lemma SearchIsCompleteExactly(u: Unicode, name: string)
    requires |name| > 0
    ensures (forall text | Stands(u, text, name) :: FoundFrom(u, text, name, 0)) <==> forall d: nat :: !OverlapsItself(u, name, d)
  {
    if d: nat :| OverlapsItself(u, name, d) {
      var text := OverlapIsMissed(u, name, d);
    } else {
      forall text | Stands(u, text, name) ensures FoundFrom(u, text, name, 0) {
        var p :| IsWordAt(u, text, name, p);
        WordIs(u, text, name, p);
        StandingNamesAreFound(u, text, name, 0, p);
      }
    }
  }

  lemma FoundExactly(u: Unicode, text: string, name: string)
    requires |u.evidence(name)| > 0
    ensures Contains(u, text, name) ==> Stands(u, u.evidence(text), u.evidence(name))
    ensures Stands(u, u.evidence(text), u.evidence(name)) && (forall d: nat :: !OverlapsItself(u, u.evidence(name), d)) ==> Contains(u, text, name)
  {
    if Contains(u, text, name) { var p := FoundNamesStand(u, u.evidence(text), u.evidence(name), 0); }
    SearchIsCompleteExactly(u, u.evidence(name));
  }
}
