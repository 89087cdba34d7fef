/** The loops of the matcher: protecting a field, comparing token counts, scanning for attachments and
restoring one token after another. */
module PlaceMatcher {
  import opened Rows
  import opened PlaceTokens
  import opened PlaceProtection
  import opened PlaceRoundTrip
  import PlaceHiding

  // ----- protectField -----

  method ProtectField(u: Unicode, v: string, field: Field, ms: seq<Match>, replacements: seq<Replacement>,
                      tokens: map<string, string>, mode: Mode, visible: set<Kind>)
    returns (text: string, more: seq<Replacement>, known: map<string, string>)
    requires MatchesOf(v, ms)
    ensures var accepted := AcceptedOf(u, v, ms, visible);
            && MatchesOf(v, accepted) && known == AssignAll(tokens, accepted, mode)
            && text == Masked(v, 0, accepted, known) && more == replacements + ReplacementsOf(accepted, field, known)
            && PlaceHiding.AreHidden(u, v, ms, visible, accepted)
            && PlaceHiding.IsWoven(v, accepted, PlaceHiding.TokensFor(accepted, known), text)
  {
    ghost var accepted := AcceptedOf(u, v, ms, visible);
    ghost var final := AssignAll(tokens, accepted, mode);
    AcceptedAreMatches(u, v, ms, visible);
    var position: nat := 0;
    text, more, known := "", replacements, tokens;
    ghost var left := accepted;
    ghost var wholeText, whole := Masked(v, 0, accepted, final), replacements + ReplacementsOf(accepted, field, final);
    assert ms[0..] == ms;
    for i := 0 to |ms|
      invariant Left(u, v, ms, i, visible, mode, position, left, known, final)
      invariant text + Masked(v, position, left, final) == wholeText
      invariant more + ReplacementsOf(left, field, final) == whole
    {
      var m := ms[i];
      if Accepted(u, v, m, visible) {
        AcceptOne(u, v, ms, i, visible, mode, position, left, known, final);
        known := Assign(known, m, mode);
        var token := TokenOf(known, m.name);
        WriteOne(v, position, left, final, text, more, field);
        text := text + v[position..m.start] + token;
        more := more + [Replacement(token, m.name, field, m.kind)];
        position := m.end;
        left := left[1..];
      } else {
        SkipOne(u, v, ms, i, visible);
      }
    }
    NothingLeft(u, v, ms, visible, mode, position, left, known, final, text, more, field);
    text := text + v[position..];
    PlaceHiding.AcceptedAreHidden(u, v, ms, visible);
    ghost var at := PlaceHiding.MaskedIsWoven(v, 0, accepted, known);
  }

  lemma NothingLeft(u: Unicode, v: string, ms: seq<Match>, visible: set<Kind>, mode: Mode, position: nat, left: seq<Match>,
                    known: map<string, string>, final: map<string, string>, text: string, more: seq<Replacement>, field: Field)
    requires Left(u, v, ms, |ms|, visible, mode, position, left, known, final)
    ensures known == final && text + Masked(v, position, left, final) == text + v[position..]
    ensures more + ReplacementsOf(left, field, final) == more
  {
    assert ms[|ms|..] == [];
  }

  /** The matches that are still to come: the text before `position` is written, and their names will get
  the final tokens. */
  ghost predicate Left(u: Unicode, v: string, ms: seq<Match>, i: nat, visible: set<Kind>, mode: Mode, position: nat, left: seq<Match>,
                       known: map<string, string>, final: map<string, string>) {
    && i <= |ms| && left == AcceptedOf(u, v, ms[i..], visible) && MatchesOf(v, left)
    && position <= |v| && (left != [] ==> position <= left[0].start) && AssignAll(known, left, mode) == final
  }

  lemma AcceptOne(u: Unicode, v: string, ms: seq<Match>, i: nat, visible: set<Kind>, mode: Mode, position: nat, left: seq<Match>,
                  known: map<string, string>, final: map<string, string>)
    requires i < |ms| && Left(u, v, ms, i, visible, mode, position, left, known, final) && Accepted(u, v, ms[i], visible)
    ensures left != [] && left[0] == ms[i]
    ensures Left(u, v, ms, i + 1, visible, mode, ms[i].end, left[1..], Assign(known, ms[i], mode), final)
    ensures TokenOf(final, ms[i].name) == TokenOf(Assign(known, ms[i], mode), ms[i].name)
  {
    assert ms[i..][0] == ms[i] && ms[i..][1..] == ms[i + 1..];
    assert left[1..] == AcceptedOf(u, v, ms[i + 1..], visible);
    RestMatches(v, left);
    AssignAllGrows(Assign(known, ms[i], mode), left[1..], mode);
  }

  lemma WriteOne(v: string, position: nat, left: seq<Match>, final: map<string, string>, text: string, more: seq<Replacement>, field: Field)
    requires MatchesOf(v, left) && left != [] && position <= left[0].start
    ensures MatchesOf(v, left[1..]) && position <= left[0].start <= left[0].end <= |v| && (|left| > 1 ==> left[0].end <= left[1].start)
    ensures text + v[position..left[0].start] + TokenOf(final, left[0].name) + Masked(v, left[0].end, left[1..], final) ==
            text + Masked(v, position, left, final)
    ensures more + [Replacement(TokenOf(final, left[0].name), left[0].name, field, left[0].kind)] + ReplacementsOf(left[1..], field, final) ==
            more + ReplacementsOf(left, field, final)
  {
    RestMatches(v, left);
    MaskedParts(v, position, left, final);
    AppendParts(text, v[position..left[0].start], TokenOf(final, left[0].name), Masked(v, left[0].end, left[1..], final));
    ReplacementsParts(left, field, final);
  }

  lemma SkipOne(u: Unicode, v: string, ms: seq<Match>, i: nat, visible: set<Kind>)
    requires i < |ms| && !Accepted(u, v, ms[i], visible)
    ensures AcceptedOf(u, v, ms[i + 1..], visible) == AcceptedOf(u, v, ms[i..], visible)
  {
    assert ms[i..][0] == ms[i] && ms[i..][1..] == ms[i + 1..];
  }

  lemma ReplacementsParts(ms: seq<Match>, field: Field, tokens: map<string, string>)
    requires ms != []
    ensures ReplacementsOf(ms, field, tokens) ==
            [Replacement(TokenOf(tokens, ms[0].name), ms[0].name, field, ms[0].kind)] + ReplacementsOf(ms[1..], field, tokens)
  {
  }

  lemma AppendParts(text: string, g: string, x: string, rest: string)
    ensures text + (g + (x + rest)) == text + g + x + rest
  {
  }

  lemma RestMatches(v: string, ms: seq<Match>)
    requires MatchesOf(v, ms) && ms != []
    ensures MatchesOf(v, ms[1..]) && (|ms| > 1 ==> ms[0].end <= ms[1].start)
  {
  }

  lemma {:induction false} MaskedWithMore(v: string, from: nat, ms: seq<Match>, field: Field, tokens: map<string, string>, more: map<string, string>)
    requires from <= |v| && MatchesOf(v, ms) && (ms != [] ==> from <= ms[0].start)
    requires forall m | m in ms :: TokenOf(tokens, m.name) == TokenOf(more, m.name)
    ensures Masked(v, from, ms, tokens) == Masked(v, from, ms, more)
    decreases |ms|
  {
    if ms != [] {
      assert ms[0] in ms;
      RestMatches(v, ms);
      MaskedWithMore(v, ms[0].end, ms[1..], field, tokens, more);
    }
  }

  method ProtectWithOptions(u: Unicode, title: string, titleMatches: seq<Match>, summary: string, summaryMatches: seq<Match>,
                            visible: set<Kind>, mode: Mode) returns (p: Option<Protected>)
    requires MatchesOf(title, titleMatches) && MatchesOf(summary, summaryMatches)
    ensures p == Protect(u, title, titleMatches, summary, summaryMatches, visible, mode)
    ensures PlaceHiding.IsProtection(u, title, titleMatches, summary, summaryMatches, visible, mode, p)
  {
    p := ProtectFields(u, title, titleMatches, summary, summaryMatches, visible, mode);
    PlaceHiding.ProtectionIs(u, title, titleMatches, summary, summaryMatches, visible, mode);
  }

  /** Both fields share one numbering. */
  method ProtectFields(u: Unicode, title: string, titleMatches: seq<Match>, summary: string, summaryMatches: seq<Match>,
                       visible: set<Kind>, mode: Mode) returns (p: Option<Protected>)
    requires MatchesOf(title, titleMatches) && MatchesOf(summary, summaryMatches)
    ensures p == Protect(u, title, titleMatches, summary, summaryMatches, visible, mode)
  {
    if Contains(title, TOKEN_PREFIX) || Contains(summary, TOKEN_PREFIX) {
      return None;
    }
    ghost var ts, ss := AcceptedOf(u, title, titleMatches, visible), AcceptedOf(u, summary, summaryMatches, visible);
    var protectedTitle, protectedSummary, replacements, first, known;
    protectedTitle, replacements, first := ProtectField(u, title, Title, titleMatches, [], map[], mode, visible);
    protectedSummary, replacements, known := ProtectField(u, summary, Summary, summaryMatches, replacements, first, mode, visible);
    AssignAllGrows(map[], ts, mode);
    AssignAllGrows(first, ss, mode);
    MaskedWithMore(title, 0, ts, Title, first, known);
    assert ReplacementsOf(ts, Title, first) == ReplacementsOf(ts, Title, known);
    assert [] + ReplacementsOf(ts, Title, first) == ReplacementsOf(ts, Title, first);
    p := Some(Protected(protectedTitle, protectedSummary, replacements));
  }

  // ----- sameTokenCounts -----

  /** A map from the tokens of a list to how often they occur in it. */
  ghost predicate CountsOf(counts: map<string, nat>, ts: seq<string>) {
    && (forall t :: t in counts <==> t in ts)
    && (forall t | t in counts :: counts[t] == multiset(ts)[t])
  }

  method CountTokens(ts: seq<string>) returns (counts: map<string, nat>)
    ensures CountsOf(counts, ts)
  {
    counts := map[];
    for i := 0 to |ts|
      invariant CountsOf(counts, ts[..i])
    {
      assert ts[..i + 1] == ts[..i] + [ts[i]];
      assert multiset(ts[..i + 1]) == multiset(ts[..i]) + multiset{ts[i]};
      counts := counts[ts[i] := (if ts[i] in counts then counts[ts[i]] else 0) + 1];
    }
    assert ts[..|ts|] == ts;
  }

  /** Comparing sizes and every expected count is enough, because no count is zero. */
  method SameTokenCounts(expected: map<string, nat>, actual: map<string, nat>, ghost es: seq<string>, ghost fs: seq<string>) returns (same: bool)
    requires CountsOf(expected, es) && CountsOf(actual, fs)
    ensures same <==> multiset(es) == multiset(fs)
  {
    if |expected| != |actual| {
      CountsDecide(expected, actual, es, fs);
      return false;
    }
    var rest := expected.Keys;
    while rest != {}
      invariant rest <= expected.Keys
      invariant forall t | t in expected && t !in rest :: t in actual && actual[t] == expected[t]
      decreases |rest|
    {
      var t :| t in rest;
      if (if t in actual then actual[t] else 0) != expected[t] {
        CountsDecide(expected, actual, es, fs);
        return false;
      }
      assert expected[t] > 0;
      rest := rest - {t};
    }
    SubsetOfSameSize(expected.Keys, actual.Keys);
    assert expected == actual;
    CountsDecide(expected, actual, es, fs);
    same := true;
  }

  lemma CountsDecide(expected: map<string, nat>, actual: map<string, nat>, es: seq<string>, fs: seq<string>)
    requires CountsOf(expected, es) && CountsOf(actual, fs)
    ensures expected == actual <==> multiset(es) == multiset(fs)
  {
    if expected == actual {
      forall t ensures multiset(es)[t] == multiset(fs)[t] {
        assert t in expected <==> t in multiset(es);
        assert t in actual <==> t in multiset(fs);
      }
    }
    if multiset(es) == multiset(fs) {
      forall t ensures t in expected <==> t in actual {
        assert t in es <==> t in multiset(es);
        assert t in fs <==> t in multiset(fs);
      }
      assert expected == actual;
    }
  }

  lemma SubsetOfSameSize<T>(a: set<T>, b: set<T>)
    requires a <= b && |a| == |b|
    ensures a == b
  {
    assert |b - a| == 0;
  }

  // ----- standaloneToken and Restore -----

  method StandaloneToken(u: Unicode, v: string, t: string) returns (standalone: bool)
    requires |t| > 0
    ensures standalone == StandaloneFrom(u, v, t, 0)
  {
    var offset := 0;
    while offset < |v|
      invariant offset <= |v| && StandaloneFrom(u, v, t, offset) == StandaloneFrom(u, v, t, 0)
      decreases |v| - offset
    {
      if OccursAt(v, t, offset) {
        if Attached(u, v, offset, offset + |t|) {
          return false;
        }
        offset := offset + |t|;
      } else {
        offset := offset + 1;
      }
    }
    standalone := true;
  }

  method SameTokens(expected: seq<string>, actual: seq<string>) returns (same: bool)
    ensures same <==> multiset(expected) == multiset(actual)
  {
    var expectedCounts := CountTokens(expected);
    var actualCounts := CountTokens(actual);
    same := SameTokenCounts(expectedCounts, actualCounts, expected, actual);
  }

  method AllStandalone(u: Unicode, v: string, tokens: seq<string>) returns (all: bool)
    requires forall t | t in tokens :: |t| > 0
    ensures all <==> forall t | t in tokens :: StandaloneFrom(u, v, t, 0)
  {
    for i := 0 to |tokens|
      invariant forall k | 0 <= k < i :: StandaloneFrom(u, v, tokens[k], 0)
    {
      var standalone := StandaloneToken(u, v, tokens[i]);
      if !standalone {
        return false;
      }
    }
    all := true;
  }

  method CheckField(u: Unicode, v: string, replacements: seq<Replacement>, field: Field) returns (ok: bool)
    ensures ok == FieldOk(u, v, Expected(replacements, field))
  {
    var actual := FindAll(v);
    var same := SameTokens(Expected(replacements, field), actual);
    if !same {
      return false;
    }
    forall t | t in actual ensures |t| > 0 { FoundAreMatches(v, t); }
    ok := AllStandalone(u, v, actual);
  }

  method RestorePlaces(u: Unicode, p: Protected, title: string, summary: string) returns (restored: Option<(string, string)>)
    ensures restored == Restore(u, p, title, summary)
  {
    var titleOk := CheckField(u, title, p.replacements, Title);
    var summaryOk := CheckField(u, summary, p.replacements, Summary);
    if !titleOk || !summaryOk {
      return None;
    }
    var t, s := title, summary;
    var done: set<string> := {};
    assert p.replacements[0..] == p.replacements;
    for i := 0 to |p.replacements|
      invariant ReplaceEach(t, p.replacements[i..], done) == ReplaceEach(title, p.replacements, {})
      invariant ReplaceEach(s, p.replacements[i..], done) == ReplaceEach(summary, p.replacements, {})
    {
      var r := p.replacements[i];
      assert p.replacements[i..][0] == r && p.replacements[i..][1..] == p.replacements[i + 1..];
      if r.token !in done && r.token != "" {
        t := ReplaceAll(t, r.token, r.original);
        s := ReplaceAll(s, r.token, r.original);
        done := done + {r.token};
      }
    }
    if Contains(t, TOKEN_PREFIX) || Contains(s, TOKEN_PREFIX) {
      return None;
    }
    restored := Some((t, s));
  }
}
