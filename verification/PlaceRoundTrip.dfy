/** What protecting and restoring place names guarantee together. */
module PlaceRoundTrip {
  import opened Rows
  import opened PlaceTokens
  import opened PlaceProtection

  // ----- tokens in a text -----

  /** An occurrence that begins inside a token runs past its end with a word character. */
  lemma OverlapRunsOn(v: string, t: string, p: nat, x: string, q: nat)
    requires IsToken(t) && IsToken(x) && OccursAt(v, t, p) && OccursAt(v, x, q) && p < q < p + |t|
    ensures p + |t| < |v| && Word(v[p + |t|])
  {
    TokenShape(t);
    TokenShape(x);
    assert v[p..][..|t|] == t && v[q..][..|x|] == x;
    assert forall i | 0 <= i < |t| :: t[i] == v[p..][i] == v[p + i];
    assert forall i | 0 <= i < |x| :: x[i] == v[q..][i] == v[q + i];
    assert x[0] == v[q] == t[q - p];
    assert x[1] == v[q + 1] && (q - p + 1 < |t| ==> t[q - p + 1] == v[q + 1]);
    assert v[p + |t|] == x[p + |t| - q];
  }

  /** Every occurrence is free of attachments. */
  ghost predicate Standalone(u: Unicode, v: string, t: string) {
    forall p: nat | p <= |v| && OccursAt(v, t, p) :: !Attached(u, v, p, p + |t|)
  }

  lemma StandaloneIsIsolated(u: Unicode, v: string, t: string)
    requires Faithful(u) && Standalone(u, v, t)
    ensures Isolated(v, t)
  {
    forall p: nat | p <= |v| && OccursAt(v, t, p)
      ensures (p > 0 ==> !Word(v[p - 1])) && (p + |t| < |v| ==> !Word(v[p + |t|]))
    {
      assert !Attached(u, v, p, p + |t|);
      if p > 0 && Word(v[p - 1]) { WordAttaches(u, v[p - 1]); }
      if p + |t| < |v| && Word(v[p + |t|]) { WordAttaches(u, v[p + |t|]); }
    }
  }

  /** No occurrence from the offset on is attached. */
  ghost predicate CleanFrom(u: Unicode, v: string, t: string, offset: nat) {
    forall p: nat | offset <= p <= |v| && OccursAt(v, t, p) :: !Attached(u, v, p, p + |t|)
  }

  lemma CleanAfterHit(u: Unicode, v: string, t: string, offset: nat)
    requires Faithful(u) && IsToken(t) && OccursAt(v, t, offset)
    ensures CleanFrom(u, v, t, offset) <==> !Attached(u, v, offset, offset + |t|) && CleanFrom(u, v, t, offset + |t|)
  {
    if !Attached(u, v, offset, offset + |t|) && CleanFrom(u, v, t, offset + |t|) {
      forall p: nat | offset <= p <= |v| && OccursAt(v, t, p) ensures !Attached(u, v, p, p + |t|) {
        if offset < p < offset + |t| {
          OverlapRunsOn(v, t, offset, t, p);
          WordAttaches(u, v[offset + |t|]);
        }
      }
    }
  }

  lemma CleanAfterMiss(u: Unicode, v: string, t: string, offset: nat)
    requires offset <= |v| && !OccursAt(v, t, offset)
    ensures CleanFrom(u, v, t, offset) <==> CleanFrom(u, v, t, offset + 1)
  {
    if CleanFrom(u, v, t, offset + 1) {
      forall p: nat | offset <= p <= |v| && OccursAt(v, t, p) ensures !Attached(u, v, p, p + |t|) { assert p != offset; }
    }
  }

  lemma CleanAtEnd(u: Unicode, v: string, t: string)
    requires |t| > 0
    ensures CleanFrom(u, v, t, |v|)
  {
  }

  /** The scan from left to right looks at every occurrence that matters: it succeeds exactly when no
  occurrence at all is attached. */
  lemma {:induction false} ScanIsExact(u: Unicode, v: string, t: string, offset: nat)
    requires Faithful(u) && IsToken(t) && offset <= |v| && |t| > 0
    ensures StandaloneFrom(u, v, t, offset) <==> CleanFrom(u, v, t, offset)
    decreases |v| - offset
  {
    if offset == |v| {
      CleanAtEnd(u, v, t);
    } else if OccursAt(v, t, offset) {
      ScanIsExact(u, v, t, offset + |t|);
      CleanAfterHit(u, v, t, offset);
    } else {
      ScanIsExact(u, v, t, offset + 1);
      CleanAfterMiss(u, v, t, offset);
    }
  }

  /** In a text whose found tokens stand alone, every occurrence of a token is found. */
  lemma {:induction false} OccurrenceIsFound(v: string, t: string, p: nat)
    requires IsToken(t) && OccursAt(v, t, p) && forall x | x in FindAll(v) :: IsToken(x) && Isolated(v, x)
    ensures t in FindAll(v)
    decreases |v|, 1
  {
    TokenShape(t);
    OccurrenceMatches(v, t, p);
    assert p == 0 ==> v[p..] == v;
    var n := MatchLen(v);
    if n == 0 {
      LaterIsFound(v, t, p, 1);
    } else if p >= n {
      LaterIsFound(v, t, p, n);
    } else if p > 0 {
      assert v[..n] in FindAll(v) && v[0..] == v && OccursAt(v, v[..n], 0);
      OverlapRunsOn(v, v[..n], 0, t, p);
    }
  }

  lemma {:induction false} LaterIsFound(v: string, t: string, p: nat, n: nat)
    requires IsToken(t) && OccursAt(v, t, p) && 0 < n <= p && forall x | x in FindAll(v) :: IsToken(x) && Isolated(v, x)
    requires forall x | x in FindAll(v[n..]) :: x in FindAll(v)
    ensures t in FindAll(v[n..])
    decreases |v|, 0
  {
    SuffixOccurrence(v, t, p, n);
    forall x | x in FindAll(v[n..]) ensures IsToken(x) && Isolated(v[n..], x) { IsolatedSuffix(v, x, n); }
    OccurrenceIsFound(v[n..], t, p - n);
  }

  lemma SuffixOccurrence(v: string, t: string, p: nat, n: nat)
    requires n <= p && OccursAt(v, t, p)
    ensures OccursAt(v[n..], t, p - n)
  {
    assert v[n..][p - n..] == v[p..];
  }

  // ----- sequential replacement is simultaneous substitution -----

  /** Tokens as the pattern has them, names without the token prefix, and one name per token. */
  ghost predicate ReplacementsOk(rs: seq<Replacement>) {
    && (forall r | r in rs :: IsToken(r.token) && !Contains(r.original, TOKEN_PREFIX))
    && (forall r, s | r in rs && s in rs && r.token == s.token :: r.original == s.original)
  }

  function NameMap(rs: seq<Replacement>): map<string, string> {
    if rs == [] then map[] else NameMap(rs[..|rs| - 1])[rs[|rs| - 1].token := rs[|rs| - 1].original]
  }

  lemma {:induction false} NameMapOf(rs: seq<Replacement>)
    requires ReplacementsOk(rs)
    ensures forall t :: t in NameMap(rs) <==> exists r :: r in rs && r.token == t
    ensures forall r | r in rs :: r.token in NameMap(rs) && NameMap(rs)[r.token] == r.original
  {
    if rs != [] {
      var front, last := rs[..|rs| - 1], rs[|rs| - 1];
      NameMapOf(front);
      assert forall r :: r in rs <==> r in front || r == last;
    }
  }

  lemma NoTokenWithoutPrefix(o: string, t: string)
    requires IsToken(t) && !Contains(o, TOKEN_PREFIX)
    ensures !Contains(o, t)
  {
    if Contains(o, t) {
      TokenShape(t);
      var p: nat :| p <= |o| && OccursAt(o, t, p);
      assert o[p..][..5] == t[..5];
      assert OccursAt(o, TOKEN_PREFIX, p);
    }
  }

  lemma {:induction false} SubstituteNothing(v: string)
    ensures Substitute(v, map[]) == v
    decreases |v|
  {
    if v != "" { SubstituteNothing(v[1..]); }
  }

  /** The loop over the replacements, from the point where the first `n` of them are done. */
  lemma {:induction false} ReplaceTheRest(v: string, rs: seq<Replacement>, n: nat)
    requires n <= |rs| && ReplacementsOk(rs) && forall r | r in rs :: Isolated(v, r.token)
    ensures ReplaceEach(Substitute(v, NameMap(rs[..n])), rs[n..], NameMap(rs[..n]).Keys) == Substitute(v, NameMap(rs))
    decreases |rs| - n
  {
    if n == |rs| {
      assert rs[..n] == rs;
    } else {
      ReplaceTheRest(v, rs, n + 1);
      ReplaceNext(v, rs, n);
      assert rs[n..][1..] == rs[n + 1..];
    }
  }

  lemma ReplaceNext(v: string, rs: seq<Replacement>, n: nat)
    requires n < |rs| && ReplacementsOk(rs) && forall r | r in rs :: Isolated(v, r.token)
    ensures var (m, after, r) := (NameMap(rs[..n]), NameMap(rs[..n + 1]), rs[n]);
            && |r.token| > 0
            && (r.token in m ==> after == m)
            && (r.token !in m ==> after.Keys == m.Keys + {r.token} &&
                                  ReplaceAll(Substitute(v, m), r.token, r.original) == Substitute(v, after))
  {
    var front, r := rs[..n], rs[n];
    assert r in rs;
    TokenShape(r.token);
    assert rs[..n + 1][..n] == front && rs[..n + 1][n] == r;
    assert forall x | x in front :: x in rs;
    NameMapOf(front);
    if r.token in NameMap(front) {
      var x :| x in front && x.token == r.token;
      SameEntry(NameMap(front), r.token, r.original);
    } else {
      NextIsNew(v, rs, front, r);
    }
  }

  lemma SameEntry<K, V>(m: map<K, V>, k: K, x: V)
    requires k in m && m[k] == x
    ensures m[k := x] == m
  {
  }

  lemma NextIsNew(v: string, rs: seq<Replacement>, front: seq<Replacement>, r: Replacement)
    requires ReplacementsOk(rs) && (forall x | x in rs :: Isolated(v, x.token)) && r in rs && forall x | x in front :: x in rs
    requires r.token !in NameMap(front)
    ensures ReplaceAll(Substitute(v, NameMap(front)), r.token, r.original) == Substitute(v, NameMap(front)[r.token := r.original])
  {
    var m := NameMap(front);
    NameMapOf(front);
    TokenShape(r.token);
    forall k | k in m ensures IsToken(k) && !Contains(m[k], r.token) && Isolated(v, k) {
      var x :| x in front && x.token == k;
      NoTokenWithoutPrefix(x.original, r.token);
    }
    ReplaceOneMore(v, m, r.token, r.original);
  }

  lemma SequentialIsSimultaneous(v: string, rs: seq<Replacement>)
    requires ReplacementsOk(rs) && forall r | r in rs :: Isolated(v, r.token)
    ensures ReplaceEach(v, rs, {}) == Substitute(v, NameMap(rs))
  {
    ReplaceTheRest(v, rs, 0);
    SubstituteNothing(v);
    assert rs[..0] == [] && rs[0..] == rs;
    assert NameMap([]).Keys == {};
  }

  // ----- an accepted text -----

  lemma AcceptedIsIsolated(u: Unicode, v: string, expected: seq<string>, t: string)
    requires Faithful(u) && FieldOk(u, v, expected) && (forall x | x in expected :: IsToken(x)) && IsToken(t)
    ensures Isolated(v, t)
  {
    forall x | x in FindAll(v) ensures IsToken(x) && Isolated(v, x) {
      assert x in multiset(FindAll(v));
      assert x in expected;
      ScanIsExact(u, v, x, 0);
      StandaloneIsIsolated(u, v, x);
    }
    if !Isolated(v, t) {
      var p: nat :| p <= |v| && OccursAt(v, t, p) && !((p > 0 ==> !Word(v[p - 1])) && (p + |t| < |v| ==> !Word(v[p + |t|])));
      OccurrenceIsFound(v, t, p);
    }
  }

  /** For every text that Restore accepts, its one-token-at-a-time replacement equals the simultaneous
  substitution of all tokens, and no token prefix is left. */
  lemma RestoredTextIsSubstituted(u: Unicode, p: Protected, title: string, summary: string)
    requires Faithful(u) && ReplacementsOk(p.replacements) && Restore(u, p, title, summary).Some?
    ensures var names := NameMap(p.replacements);
            var restored := Restore(u, p, title, summary).value;
            && restored == (Substitute(title, names), Substitute(summary, names))
            && !Contains(restored.0, TOKEN_PREFIX) && !Contains(restored.1, TOKEN_PREFIX)
  {
    var rs := p.replacements;
    forall r | r in rs ensures Isolated(title, r.token) && Isolated(summary, r.token) {
      AcceptedIsIsolated(u, title, Expected(rs, Title), r.token);
      AcceptedIsIsolated(u, summary, Expected(rs, Summary), r.token);
    }
    SequentialIsSimultaneous(title, rs);
    SequentialIsSimultaneous(summary, rs);
  }

  // ----- the masked text -----

  /** What a translation must not touch, seen in the source: no protected name stands next to an underscore
  or directly next to another protected name. */
  ghost predicate Apart(v: string, ms: seq<Match>)
    requires MatchesOf(v, ms)
  {
    && (forall m | m in ms :: (m.start > 0 ==> v[m.start - 1] != '_') && (m.end < |v| ==> v[m.end] != '_'))
    && (forall i | 0 <= i < |ms| - 1 :: ms[i].end < ms[i + 1].start)
  }

  /** Accepted matches of a text without token prefixes, all with tokens. */
  ghost predicate Maskable(u: Unicode, v: string, ms: seq<Match>, tokens: map<string, string>) {
    && Faithful(u) && MatchesOf(v, ms) && !Contains(v, TOKEN_PREFIX)
    && (forall m | m in ms :: m.start <= m.end <= |v| && Boundary(u, v, m.start, m.end) && m.name in tokens)
  }

  ghost predicate AllTokens(tokens: map<string, string>) { forall name | name in tokens :: IsToken(tokens[name]) }

  lemma MaskableRest(u: Unicode, v: string, ms: seq<Match>, tokens: map<string, string>)
    requires Maskable(u, v, ms, tokens) && ms != []
    ensures Maskable(u, v, ms[1..], tokens) && (Apart(v, ms) ==> Apart(v, ms[1..]))
  {
    assert forall m | m in ms[1..] :: m in ms;
  }

  lemma SliceOfSlice(v: string, i: nat, j: nat, a: nat, b: nat)
    requires i <= j <= |v| && a <= b <= j - i
    ensures v[i..j][a..b] == v[i + a..i + b]
  {
    forall k | 0 <= k < b - a ensures v[i..j][a..b][k] == v[i + a..i + b][k] {}
  }

  lemma SliceOfFront(g: string, w: string, a: nat, b: nat)
    requires a <= b <= |g|
    ensures (g + w)[a..b] == g[a..b]
  {
  }

  /** A match that starts in a gap either lies in it or runs over its last character. */
  lemma MatchInGap(v: string, from: nat, to: nat, w: string, p: nat)
    requires from <= to <= |v| && p < to - from && MatchLen((v[from..to] + w)[p..]) > 0
    ensures Contains(v, TOKEN_PREFIX) || (w != "" && Word(v[to - 1]))
  {
    var y := v[from..to] + w;
    assert y[p..][..5] == TOKEN_PREFIX;
    assert forall i | 0 <= i < 5 :: y[p + i] == y[p..][..5][i] == TOKEN_PREFIX[i];
    if p + 5 <= to - from {
      SliceOfFront(v[from..to], w, p, p + 5);
      SliceOfSlice(v, from, to, p, p + 5);
      assert y[p..][..5] == y[p..p + 5] && v[from + p..][..5] == v[from + p..from + p + 5];
      assert OccursAt(v, TOKEN_PREFIX, from + p);
    } else {
      assert y[to - from - 1] == v[to - 1];
    }
  }

  lemma FindsAt(y: string, p: nat)
    requires p < |y| && MatchLen(y[p..]) == 0
    ensures FindAll(y[p..]) == FindAll(y[p + 1..])
  {
    assert y[p..][1..] == y[p + 1..];
  }

  lemma {:induction false} FindsAfterGap(y: string, p: nat, n: nat)
    requires p <= n <= |y| && forall q | p <= q < n :: MatchLen(y[q..]) == 0
    ensures FindAll(y[p..]) == FindAll(y[n..])
    decreases n - p
  {
    if p < n {
      FindsAt(y, p);
      FindsAfterGap(y, p + 1, n);
    }
  }

  lemma {:induction false} SubstitutesAfterGap(y: string, n: nat, m: map<string, string>)
    requires n <= |y| && forall q | 0 <= q < n :: MatchLen(y[q..]) == 0
    ensures Substitute(y, m) == y[..n] + Substitute(y[n..], m)
    decreases n
  {
    if n > 0 {
      SubstitutesAfterGap(y, n - 1, m);
      OneMoreCopied(y, m, n - 1);
    } else {
      assert y[0..] == y;
    }
  }

  lemma SkipGap(g: string, w: string, m: map<string, string>)
    requires forall p | 0 <= p < |g| :: MatchLen((g + w)[p..]) == 0
    ensures FindAll(g + w) == FindAll(w) && Substitute(g + w, m) == g + Substitute(w, m)
  {
    FindsAfterGap(g + w, 0, |g|);
    SubstitutesAfterGap(g + w, |g|, m);
    assert (g + w)[0..] == g + w && (g + w)[|g|..] == w && (g + w)[..|g|] == g;
  }

  lemma QuietGap(u: Unicode, v: string, from: nat, to: nat, w: string, p: nat)
    requires Faithful(u) && !Contains(v, TOKEN_PREFIX) && from <= to <= |v| && p < to - from && (w != "" ==> !Attaches(u, v[to - 1]))
    ensures MatchLen((v[from..to] + w)[p..]) == 0
  {
    if MatchLen((v[from..to] + w)[p..]) > 0 {
      MatchInGap(v, from, to, w, p);
      WordAttaches(u, v[to - 1]);
    }
  }

  /** The end of the gap before the first name. */
  function GapEnd(v: string, ms: seq<Match>): nat { if ms == [] then |v| else ms[0].start }

  lemma MaskedParts(v: string, from: nat, ms: seq<Match>, tokens: map<string, string>)
    requires from <= |v| && MatchesOf(v, ms) && ms != [] && from <= ms[0].start
    ensures MatchesOf(v, ms[1..]) && Masked(v, from, ms, tokens) ==
      v[from..ms[0].start] + (TokenOf(tokens, ms[0].name) + Masked(v, ms[0].end, ms[1..], tokens))
  {
  }

  lemma BeforeName(u: Unicode, v: string, ms: seq<Match>, tokens: map<string, string>)
    requires Maskable(u, v, ms, tokens) && Apart(v, ms) && ms != []
    ensures ms[0].start > 0 ==> !Attaches(u, v[ms[0].start - 1])
  {
    assert ms[0] in ms;
  }

  /** Nothing matches in the gap before the first name. */
  lemma GapIsQuiet(u: Unicode, v: string, from: nat, ms: seq<Match>, tokens: map<string, string>, p: nat)
    requires Maskable(u, v, ms, tokens) && Apart(v, ms) && from <= GapEnd(v, ms) <= |v| && p < GapEnd(v, ms) - from
    ensures MatchLen(Masked(v, from, ms, tokens)[p..]) == 0
  {
    if ms == [] {
      QuietGap(u, v, from, |v|, "", p);
      assert v[from..|v|] + "" == Masked(v, from, ms, tokens);
    } else {
      BeforeName(u, v, ms, tokens);
      MaskedParts(v, from, ms, tokens);
      QuietGap(u, v, from, ms[0].start, TokenOf(tokens, ms[0].name) + Masked(v, ms[0].end, ms[1..], tokens), p);
    }
  }

  function TokenList(ms: seq<Match>, tokens: map<string, string>): seq<string> {
    if ms == [] then [] else [TokenOf(tokens, ms[0].name)] + TokenList(ms[1..], tokens)
  }

  /** One name with the gap before it, read back. */
  lemma PartIsReadBack(g: string, x: string, rest: string, names: map<string, string>)
    requires forall p | 0 <= p < |g| :: MatchLen((g + (x + rest))[p..]) == 0
    requires IsToken(x) && x in names
    ensures FindAll(g + (x + rest)) == [x] + FindAll(rest)
    ensures Substitute(g + (x + rest), names) == g + (names[x] + Substitute(rest, names))
  {
    SkipGap(g, x + rest, names);
    TokenMatches(x, rest);
    assert (x + rest)[..|x|] == x && (x + rest)[|x|..] == rest;
  }

  /** The pattern finds exactly the inserted tokens, and substituting them gives the source back. */
  lemma {:induction false} MaskedIsReadBack(u: Unicode, v: string, from: nat, ms: seq<Match>, tokens: map<string, string>, names: map<string, string>)
    requires Maskable(u, v, ms, tokens) && AllTokens(tokens) && Apart(v, ms) && from <= GapEnd(v, ms) <= |v|
    requires forall m | m in ms :: tokens[m.name] in names && names[tokens[m.name]] == m.name
    ensures FindAll(Masked(v, from, ms, tokens)) == TokenList(ms, tokens)
    ensures Substitute(Masked(v, from, ms, tokens), names) == v[from..]
    decreases |ms|
  {
    var y := Masked(v, from, ms, tokens);
    forall p | 0 <= p < GapEnd(v, ms) - from ensures MatchLen(y[p..]) == 0 { GapIsQuiet(u, v, from, ms, tokens, p); }
    if ms == [] {
      assert v[from..] + "" == y;
      SkipGap(v[from..], "", names);
    } else {
      assert ms[0] in ms;
      MaskedParts(v, from, ms, tokens);
      PartIsReadBack(v[from..ms[0].start], tokens[ms[0].name], Masked(v, ms[0].end, ms[1..], tokens), names);
      MaskableRest(u, v, ms, tokens);
      MaskedIsReadBack(u, v, ms[0].end, ms[1..], tokens, names);
      PartsOfText(v, from, ms[0].start, ms[0].end);
    }
  }

  lemma PartsOfText(v: string, i: nat, j: nat, k: nat)
    requires i <= j <= k <= |v|
    ensures v[i..j] + (v[j..k] + v[k..]) == v[i..]
  {
  }

  predicate EndsDetached(u: Unicode, s: string) { |s| > 0 ==> !Attaches(u, s[|s| - 1]) }
  predicate StartsDetached(u: Unicode, s: string) { |s| > 0 ==> !Attaches(u, s[0]) }

  /** The characters next to a protected name do not attach. */
  lemma NextToName(u: Unicode, v: string, from: nat, ms: seq<Match>, tokens: map<string, string>)
    requires Maskable(u, v, ms, tokens) && Apart(v, ms) && ms != [] && from <= ms[0].start
    ensures EndsDetached(u, v[from..ms[0].start]) && StartsDetached(u, Masked(v, ms[0].end, ms[1..], tokens))
  {
    var m := ms[0];
    assert m in ms;
    assert from < m.start ==> v[from..m.start][m.start - from - 1] == v[m.start - 1];
    RestStarts(v, ms, tokens);
  }

  lemma RestStarts(v: string, ms: seq<Match>, tokens: map<string, string>)
    requires MatchesOf(v, ms) && ms != [] && (|ms| > 1 ==> ms[0].end < ms[1].start)
    ensures MatchesOf(v, ms[1..])
    ensures var rest := Masked(v, ms[0].end, ms[1..], tokens); |rest| > 0 ==> ms[0].end < |v| && rest[0] == v[ms[0].end]
  {
  }

  lemma NotAttached(u: Unicode, g: string, x: string, rest: string)
    requires EndsDetached(u, g) && StartsDetached(u, rest)
    ensures !Attached(u, g + (x + rest), |g|, |g| + |x|)
  {
    var y := g + (x + rest);
    assert |g| > 0 ==> y[|g| - 1] == g[|g| - 1];
    assert |rest| > 0 ==> y[|g| + |x|] == rest[0];
  }

  /** A token between characters that do not attach: no other occurrence begins in it, and it stands alone. */
  lemma TokenStandsAlone(u: Unicode, g: string, x: string, rest: string, t: string, p: nat)
    requires Faithful(u) && IsToken(x) && IsToken(t) && OccursAt(g + (x + rest), t, p) && |g| <= p < |g| + |x|
    requires EndsDetached(u, g) && StartsDetached(u, rest)
    ensures p + |t| <= |g + (x + rest)| && !Attached(u, g + (x + rest), p, p + |t|)
  {
    OccursInMiddle(g, x, rest);
    if p == |g| {
      SameToken(g, x, rest, t);
    } else {
      OverlapRunsOn(g + (x + rest), x, |g|, t, p);
      WordAttaches(u, (g + (x + rest))[|g| + |x|]);
    }
    NotAttached(u, g, x, rest);
  }

  lemma OccursInMiddle(g: string, x: string, rest: string)
    ensures |g| <= |g + (x + rest)| && OccursAt(g + (x + rest), x, |g|)
  {
    assert (g + (x + rest))[|g|..] == x + rest && (x + rest)[..|x|] == x;
  }

  lemma SameToken(g: string, x: string, rest: string, t: string)
    requires IsToken(x) && IsToken(t) && OccursAt(g + (x + rest), t, |g|)
    ensures |t| == |x|
  {
    TokenMatches(x, rest);
    OccurrenceMatches(g + (x + rest), t, |g|);
    assert (g + (x + rest))[|g|..] == x + rest;
  }

  lemma OccursInRest(g: string, x: string, rest: string, t: string, q: nat)
    requires OccursAt(g + (x + rest), t, |g| + |x| + q)
    ensures OccursAt(rest, t, q)
  {
    assert (g + (x + rest))[|g| + |x| + q..] == rest[q..];
  }

  /** Seen from behind a token and a gap, an occurrence that is not at the start has the same neighbours. */
  lemma ShiftedAttached(u: Unicode, g: string, x: string, rest: string, q: nat, n: nat)
    requires q > 0 && q + n <= |rest|
    ensures Attached(u, g + (x + rest), |g| + |x| + q, |g| + |x| + q + n) <==> Attached(u, rest, q, q + n)
  {
    var y, shift := g + (x + rest), |g| + |x|;
    assert y[shift + q - 1] == rest[q - 1];
    assert q + n < |rest| ==> y[shift + q + n] == rest[q + n];
  }

  /** No occurrence of a token in the masked text is attached to anything. */
  lemma {:induction false} MaskedStandsAlone(u: Unicode, v: string, from: nat, ms: seq<Match>, tokens: map<string, string>, t: string, p: nat)
    requires Maskable(u, v, ms, tokens) && AllTokens(tokens) && Apart(v, ms) && from <= GapEnd(v, ms) <= |v|
    requires IsToken(t) && OccursAt(Masked(v, from, ms, tokens), t, p)
    ensures !Attached(u, Masked(v, from, ms, tokens), p, p + |t|)
    ensures ms != [] && p >= ms[0].start - from
    decreases |ms|, 2
  {
    NotInGap(u, v, from, ms, tokens, t, p);
    if p < ms[0].start - from + |TokenOf(tokens, ms[0].name)| {
      FirstStandsAlone(u, v, from, ms, tokens, t, p);
    } else {
      LaterStandsAlone(u, v, from, ms, tokens, t, p);
    }
  }

  lemma FirstStandsAlone(u: Unicode, v: string, from: nat, ms: seq<Match>, tokens: map<string, string>, t: string, p: nat)
    requires Maskable(u, v, ms, tokens) && AllTokens(tokens) && Apart(v, ms) && ms != [] && from <= ms[0].start <= |v|
    requires IsToken(t) && OccursAt(Masked(v, from, ms, tokens), t, p)
    requires ms[0].start - from <= p < ms[0].start - from + |TokenOf(tokens, ms[0].name)|
    ensures !Attached(u, Masked(v, from, ms, tokens), p, p + |t|)
  {
    FirstToken(u, v, ms, tokens);
    NextToName(u, v, from, ms, tokens);
    MaskedParts(v, from, ms, tokens);
    TokenStandsAlone(u, v[from..ms[0].start], TokenOf(tokens, ms[0].name), Masked(v, ms[0].end, ms[1..], tokens), t, p);
  }

  lemma {:induction false} LaterStandsAlone(u: Unicode, v: string, from: nat, ms: seq<Match>, tokens: map<string, string>, t: string, p: nat)
    requires Maskable(u, v, ms, tokens) && AllTokens(tokens) && Apart(v, ms) && ms != [] && from <= ms[0].start <= |v|
    requires IsToken(t) && OccursAt(Masked(v, from, ms, tokens), t, p)
    requires p >= ms[0].start - from + |TokenOf(tokens, ms[0].name)|
    ensures !Attached(u, Masked(v, from, ms, tokens), p, p + |t|)
    decreases |ms|, 1
  {
    var q := p - (ms[0].start - from) - |TokenOf(tokens, ms[0].name)|;
    OccursInMaskedRest(v, from, ms, tokens, t, q);
    RestStandsAlone(u, v, ms, tokens, t, q);
    AttachedInMaskedRest(u, v, from, ms, tokens, q, |t|);
  }

  lemma OccursInMaskedRest(v: string, from: nat, ms: seq<Match>, tokens: map<string, string>, t: string, q: nat)
    requires MatchesOf(v, ms) && ms != [] && from <= ms[0].start <= |v|
    requires OccursAt(Masked(v, from, ms, tokens), t, ms[0].start - from + |TokenOf(tokens, ms[0].name)| + q)
    ensures MatchesOf(v, ms[1..]) && OccursAt(Masked(v, ms[0].end, ms[1..], tokens), t, q)
  {
    MaskedParts(v, from, ms, tokens);
    OccursInRest(v[from..ms[0].start], TokenOf(tokens, ms[0].name), Masked(v, ms[0].end, ms[1..], tokens), t, q);
  }

  lemma AttachedInMaskedRest(u: Unicode, v: string, from: nat, ms: seq<Match>, tokens: map<string, string>, q: nat, n: nat)
    requires MatchesOf(v, ms) && ms != [] && from <= ms[0].start <= |v| && MatchesOf(v, ms[1..])
    requires q > 0 && q + n <= |Masked(v, ms[0].end, ms[1..], tokens)|
    ensures var (y, p) := (Masked(v, from, ms, tokens), ms[0].start - from + |TokenOf(tokens, ms[0].name)| + q);
            p + n <= |y| && (Attached(u, y, p, p + n) <==> Attached(u, Masked(v, ms[0].end, ms[1..], tokens), q, q + n))
  {
    MaskedParts(v, from, ms, tokens);
    ShiftedAttached(u, v[from..ms[0].start], TokenOf(tokens, ms[0].name), Masked(v, ms[0].end, ms[1..], tokens), q, n);
  }

  lemma {:induction false} RestStandsAlone(u: Unicode, v: string, ms: seq<Match>, tokens: map<string, string>, t: string, q: nat)
    requires Maskable(u, v, ms, tokens) && AllTokens(tokens) && Apart(v, ms) && ms != [] && IsToken(t)
    requires OccursAt(Masked(v, ms[0].end, ms[1..], tokens), t, q)
    ensures q > 0 && q + |t| <= |Masked(v, ms[0].end, ms[1..], tokens)| && !Attached(u, Masked(v, ms[0].end, ms[1..], tokens), q, q + |t|)
    decreases |ms|, 0
  {
    assert ms[0] in ms;
    MaskableRest(u, v, ms, tokens);
    MaskedStandsAlone(u, v, ms[0].end, ms[1..], tokens, t, q);
  }

  lemma FirstToken(u: Unicode, v: string, ms: seq<Match>, tokens: map<string, string>)
    requires Maskable(u, v, ms, tokens) && AllTokens(tokens) && ms != []
    ensures IsToken(TokenOf(tokens, ms[0].name))
  {
    assert ms[0] in ms;
  }

  lemma NotInGap(u: Unicode, v: string, from: nat, ms: seq<Match>, tokens: map<string, string>, t: string, p: nat)
    requires Maskable(u, v, ms, tokens) && Apart(v, ms) && from <= GapEnd(v, ms) <= |v|
    requires IsToken(t) && OccursAt(Masked(v, from, ms, tokens), t, p)
    ensures ms != [] && p >= ms[0].start - from
  {
    OccurrenceMatches(Masked(v, from, ms, tokens), t, p);
    TokenShape(t);
    if p < GapEnd(v, ms) - from { GapIsQuiet(u, v, from, ms, tokens, p); }
  }

  // ----- the expected tokens -----

  lemma {:induction false} ExpectedOfBoth(a: seq<Replacement>, b: seq<Replacement>, field: Field)
    ensures Expected(a + b, field) == Expected(a, field) + Expected(b, field)
    decreases |a|
  {
    if a == [] {
      assert a + b == b;
    } else {
      assert (a + b)[1..] == a[1..] + b;
      ExpectedOfBoth(a[1..], b, field);
    }
  }

  lemma {:induction false} ExpectedOfField(ms: seq<Match>, field: Field, tokens: map<string, string>, other: Field)
    ensures Expected(ReplacementsOf(ms, field, tokens), other) == if field == other then TokenList(ms, tokens) else []
    decreases |ms|
  {
    if ms != [] {
      assert ReplacementsOf(ms, field, tokens)[1..] == ReplacementsOf(ms[1..], field, tokens);
      ExpectedOfField(ms[1..], field, tokens, other);
    }
  }

  lemma ExpectedTokens(ts: seq<Match>, ss: seq<Match>, tokens: map<string, string>)
    ensures var rs := ReplacementsOf(ts, Title, tokens) + ReplacementsOf(ss, Summary, tokens);
            Expected(rs, Title) == TokenList(ts, tokens) && Expected(rs, Summary) == TokenList(ss, tokens)
  {
    var a, b := ReplacementsOf(ts, Title, tokens), ReplacementsOf(ss, Summary, tokens);
    ExpectedOfBoth(a, b, Title);
    ExpectedOfBoth(a, b, Summary);
    ExpectedOfField(ts, Title, tokens, Title);
    ExpectedOfField(ts, Title, tokens, Summary);
    ExpectedOfField(ss, Summary, tokens, Title);
    ExpectedOfField(ss, Summary, tokens, Summary);
  }

  lemma {:induction false} ListedTokens(ms: seq<Match>, tokens: map<string, string>)
    ensures forall m | m in ms :: TokenOf(tokens, m.name) in TokenList(ms, tokens)
    ensures forall t | t in TokenList(ms, tokens) :: exists m :: m in ms && t == TokenOf(tokens, m.name)
    decreases |ms|
  {
    if ms != [] {
      ListedTokens(ms[1..], tokens);
      assert forall m :: m in ms <==> m == ms[0] || m in ms[1..];
    }
  }

  // ----- when the round trip succeeds -----

  lemma MaskedFieldIsOk(u: Unicode, v: string, ms: seq<Match>, tokens: map<string, string>, names: map<string, string>)
    requires Maskable(u, v, ms, tokens) && AllTokens(tokens) && Apart(v, ms)
    requires forall m | m in ms :: tokens[m.name] in names && names[tokens[m.name]] == m.name
    ensures FieldOk(u, Masked(v, 0, ms, tokens), TokenList(ms, tokens)) && Substitute(Masked(v, 0, ms, tokens), names) == v
  {
    var y := Masked(v, 0, ms, tokens);
    assert GapEnd(v, ms) <= |v|;
    MaskedIsReadBack(u, v, 0, ms, tokens, names);
    ListedTokens(ms, tokens);
    forall t | t in FindAll(y) ensures |t| > 0 && StandaloneFrom(u, y, t, 0) {
      var m :| m in ms && t == TokenOf(tokens, m.name);
      assert IsToken(t);
      forall p: nat | 0 <= p <= |y| && OccursAt(y, t, p) ensures !Attached(u, y, p, p + |t|) {
        MaskedStandsAlone(u, v, 0, ms, tokens, t, p);
      }
      assert CleanFrom(u, y, t, 0);
      ScanIsExact(u, y, t, 0);
    }
    assert v[0..] == v;
  }

  /** Both fields with the tokens of one protection. */
  ghost predicate BothMaskable(u: Unicode, title: string, ts: seq<Match>, summary: string, ss: seq<Match>, tokens: map<string, string>, names: seq<string>) {
    Maskable(u, title, ts, tokens) && Maskable(u, summary, ss, tokens) && TokensOk(tokens, names)
  }

  lemma NamesHaveNoPrefix(u: Unicode, v: string, ms: seq<Match>, tokens: map<string, string>, m: Match)
    requires Maskable(u, v, ms, tokens) && m in ms
    ensures !Contains(m.name, TOKEN_PREFIX)
  {
    if Contains(m.name, TOKEN_PREFIX) {
      var p: nat :| p <= |m.name| && OccursAt(m.name, TOKEN_PREFIX, p);
      assert m.name[p..][..5] == m.name[p..p + 5];
      SliceOfSlice(v, m.start, m.end, p, p + 5);
      assert v[m.start + p..][..5] == v[m.start + p..m.start + p + 5];
      assert OccursAt(v, TOKEN_PREFIX, m.start + p);
    }
  }

  lemma ProtectedReplacementsOk(u: Unicode, title: string, ts: seq<Match>, summary: string, ss: seq<Match>, tokens: map<string, string>, names: seq<string>)
    requires BothMaskable(u, title, ts, summary, ss, tokens, names) && |names| < 10000
    ensures AllTokens(tokens)
    ensures ReplacementsOk(ReplacementsOf(ts, Title, tokens) + ReplacementsOf(ss, Summary, tokens))
  {
    var rs := ReplacementsOf(ts, Title, tokens) + ReplacementsOf(ss, Summary, tokens);
    forall name | name in tokens ensures IsToken(tokens[name]) { FourDigits(tokens, names, name); }
    forall r | r in rs ensures r.original in tokens && r.token == tokens[r.original] && !Contains(r.original, TOKEN_PREFIX) {
      if r in ReplacementsOf(ts, Title, tokens) { ReplacementOk(u, title, ts, Title, tokens, r); } else { ReplacementOk(u, summary, ss, Summary, tokens, r); }
    }
    forall r, s | r in rs && s in rs && r.token == s.token ensures r.original == s.original {
      TokensDiffer(tokens, names, r.original, s.original);
    }
  }

  lemma ReplacementOk(u: Unicode, v: string, ms: seq<Match>, field: Field, tokens: map<string, string>, r: Replacement)
    requires Maskable(u, v, ms, tokens) && r in ReplacementsOf(ms, field, tokens)
    ensures r.original in tokens && r.token == tokens[r.original] && !Contains(r.original, TOKEN_PREFIX)
  {
    var i :| 0 <= i < |ms| && ReplacementsOf(ms, field, tokens)[i] == r;
    assert ms[i] in ms;
    NamesHaveNoPrefix(u, v, ms, tokens, ms[i]);
  }

  /** The names of all replacements, read from their tokens. */
  lemma NamesAreMapped(ts: seq<Match>, ss: seq<Match>, tokens: map<string, string>)
    requires ReplacementsOk(ReplacementsOf(ts, Title, tokens) + ReplacementsOf(ss, Summary, tokens))
    ensures var names := NameMap(ReplacementsOf(ts, Title, tokens) + ReplacementsOf(ss, Summary, tokens));
            forall m | m in ts || m in ss :: TokenOf(tokens, m.name) in names && names[TokenOf(tokens, m.name)] == m.name
  {
    var a, b := ReplacementsOf(ts, Title, tokens), ReplacementsOf(ss, Summary, tokens);
    NameMapOf(a + b);
    forall m | m in ts || m in ss
      ensures TokenOf(tokens, m.name) in NameMap(a + b) && NameMap(a + b)[TokenOf(tokens, m.name)] == m.name
    {
      if m in ts {
        var i :| 0 <= i < |ts| && ts[i] == m;
        assert (a + b)[i] == a[i] && (a + b)[i] in a + b;
      } else {
        var i :| 0 <= i < |ss| && ss[i] == m;
        assert (a + b)[|a| + i] == b[i] && (a + b)[|a| + i] in a + b;
      }
    }
  }

  lemma RestoreSucceeds(u: Unicode, title: string, ts: seq<Match>, summary: string, ss: seq<Match>, tokens: map<string, string>, names: seq<string>)
    requires BothMaskable(u, title, ts, summary, ss, tokens, names) && |names| < 10000 && Apart(title, ts) && Apart(summary, ss)
    ensures var p := ProtectedWith(title, ts, summary, ss, tokens);
            Restore(u, p, p.title, p.summary) == Some((title, summary))
  {
    var p := ProtectedWith(title, ts, summary, ss, tokens);
    var rs := p.replacements;
    ProtectedReplacementsOk(u, title, ts, summary, ss, tokens, names);
    NamesAreMapped(ts, ss, tokens);
    MaskedFieldIsOk(u, title, ts, tokens, NameMap(rs));
    MaskedFieldIsOk(u, summary, ss, tokens, NameMap(rs));
    ExpectedTokens(ts, ss, tokens);
    forall r | r in rs ensures Isolated(p.title, r.token) && Isolated(p.summary, r.token) {
      ExpectedAreTokens(rs, Title);
      ExpectedAreTokens(rs, Summary);
      AcceptedIsIsolated(u, p.title, Expected(rs, Title), r.token);
      AcceptedIsIsolated(u, p.summary, Expected(rs, Summary), r.token);
    }
    SequentialIsSimultaneous(p.title, rs);
    SequentialIsSimultaneous(p.summary, rs);
  }

  lemma ExpectedAreTokens(rs: seq<Replacement>, field: Field)
    requires ReplacementsOk(rs)
    ensures forall t | t in Expected(rs, field) :: IsToken(t)
  {
    forall t | t in Expected(rs, field) ensures IsToken(t) {
      var r :| r in rs && r.token == t;
    }
  }

  function ProtectedWith(title: string, ts: seq<Match>, summary: string, ss: seq<Match>, tokens: map<string, string>): Protected
    requires MatchesOf(title, ts) && MatchesOf(summary, ss)
  {
    Protected(Masked(title, 0, ts, tokens), Masked(summary, 0, ss, tokens), ReplacementsOf(ts, Title, tokens) + ReplacementsOf(ss, Summary, tokens))
  }

  // ----- when it fails -----

  lemma UnderscoreAttaches(u: Unicode, y: string, p: nat, n: nat)
    requires Faithful(u) && p + n <= |y|
    requires (p > 0 && y[p - 1] == '_') || (p + n < |y| && y[p + n] == '_')
    ensures Attached(u, y, p, p + n)
  {
  }

  /** A token of the masked text that is attached to something. */
  ghost predicate ShowsAttached(u: Unicode, y: string, ts: seq<string>) {
    exists t, p: nat :: t in ts && p <= |y| && OccursAt(y, t, p) && Attached(u, y, p, p + |t|)
  }

  lemma FirstTouches(u: Unicode, g: string, x: string, rest: string, ts: seq<string>)
    requires Faithful(u) && x in ts && ((|g| > 0 && g[|g| - 1] == '_') || (|rest| > 0 && rest[0] == '_'))
    ensures ShowsAttached(u, g + (x + rest), ts)
  {
    OccursInMiddle(g, x, rest);
    var y := g + (x + rest);
    assert |g| > 0 ==> y[|g| - 1] == g[|g| - 1];
    assert |rest| > 0 ==> y[|g| + |x|] == rest[0];
    UnderscoreAttaches(u, y, |g|, |x|);
  }

  lemma RestShows(u: Unicode, g: string, x: string, rest: string, ts: seq<string>, more: seq<string>)
    requires ShowsAttached(u, rest, ts) && forall t | t in ts :: t in more
    ensures ShowsAttached(u, g + (x + rest), more)
  {
    var t, p: nat :| t in ts && p <= |rest| && OccursAt(rest, t, p) && Attached(u, rest, p, p + |t|);
    var y, shift := g + (x + rest), |g| + |x|;
    assert y[shift + p..] == rest[p..];
    assert p > 0 ==> y[shift + p - 1] == rest[p - 1];
    assert p + |t| < |rest| ==> y[shift + p + |t|] == rest[p + |t|];
    assert OccursAt(y, t, shift + p) && Attached(u, y, shift + p, shift + p + |t|);
  }

  /** The first name touches an underscore or the next name. */
  predicate Touches(v: string, from: nat, ms: seq<Match>)
    requires ms != [] && from <= ms[0].start < ms[0].end <= |v|
  {
    || (from < ms[0].start && v[ms[0].start - 1] == '_')
    || (ms[0].end < |v| && v[ms[0].end] == '_')
    || (|ms| > 1 && ms[0].end == ms[1].start)
  }

  lemma ApartFromParts(v: string, from: nat, ms: seq<Match>)
    requires MatchesOf(v, ms) && ms != [] && from <= ms[0].start && (from == 0 || from < ms[0].start)
    requires MatchesOf(v, ms[1..]) && !Touches(v, from, ms) && Apart(v, ms[1..])
    ensures Apart(v, ms)
  {
    forall m | m in ms ensures (m.start > 0 ==> v[m.start - 1] != '_') && (m.end < |v| ==> v[m.end] != '_') {
      assert m == ms[0] || m in ms[1..];
    }
    forall i | 0 <= i < |ms| - 1 ensures ms[i].end < ms[i + 1].start {
      if i > 0 { assert ms[1..][i - 1] == ms[i] && ms[1..][i] == ms[i + 1]; }
    }
  }

  lemma TouchShowsFirst(u: Unicode, v: string, from: nat, ms: seq<Match>, tokens: map<string, string>)
    requires Maskable(u, v, ms, tokens) && AllTokens(tokens) && ms != [] && from <= ms[0].start && Touches(v, from, ms)
    ensures ShowsAttached(u, Masked(v, from, ms, tokens), TokenList(ms, tokens))
  {
    var g, x, rest := v[from..ms[0].start], TokenOf(tokens, ms[0].name), Masked(v, ms[0].end, ms[1..], tokens);
    assert from < ms[0].start ==> g[|g| - 1] == v[ms[0].start - 1];
    if !(from < ms[0].start && v[ms[0].start - 1] == '_') { RestBegins(u, v, ms, tokens); }
    FirstTouches(u, g, x, rest, TokenList(ms, tokens));
    MaskedParts(v, from, ms, tokens);
  }

  lemma RestBegins(u: Unicode, v: string, ms: seq<Match>, tokens: map<string, string>)
    requires Maskable(u, v, ms, tokens) && AllTokens(tokens) && ms != []
    requires (ms[0].end < |v| && v[ms[0].end] == '_') || (|ms| > 1 && ms[0].end == ms[1].start)
    ensures MatchesOf(v, ms[1..])
    ensures var rest := Masked(v, ms[0].end, ms[1..], tokens); |rest| > 0 && rest[0] == '_'
  {
    if |ms| > 1 && ms[0].end == ms[1].start {
      MaskableRest(u, v, ms, tokens);
      FirstToken(u, v, ms[1..], tokens);
      MaskedParts(v, ms[0].end, ms[1..], tokens);
    } else {
      RestStarts(v, ms, tokens);
    }
  }

  lemma {:induction false} TouchShows(u: Unicode, v: string, from: nat, ms: seq<Match>, tokens: map<string, string>)
    requires Maskable(u, v, ms, tokens) && AllTokens(tokens) && from <= GapEnd(v, ms) && !Apart(v, ms)
    requires ms != [] ==> from == 0 || from < ms[0].start
    ensures ShowsAttached(u, Masked(v, from, ms, tokens), TokenList(ms, tokens))
    decreases |ms|
  {
    if ms != [] {
      if Touches(v, from, ms) {
        TouchShowsFirst(u, v, from, ms, tokens);
      } else {
        assert ms[0] in ms;
        MaskableRest(u, v, ms, tokens);
        if Apart(v, ms[1..]) { ApartFromParts(v, from, ms); }
        TouchShows(u, v, ms[0].end, ms[1..], tokens);
        RestShows(u, v[from..ms[0].start], TokenOf(tokens, ms[0].name), Masked(v, ms[0].end, ms[1..], tokens),
                  TokenList(ms[1..], tokens), TokenList(ms, tokens));
        MaskedParts(v, from, ms, tokens);
      }
    }
  }

  lemma TouchingFieldFails(u: Unicode, v: string, ms: seq<Match>, tokens: map<string, string>)
    requires Maskable(u, v, ms, tokens) && AllTokens(tokens) && !Apart(v, ms)
    ensures !FieldOk(u, Masked(v, 0, ms, tokens), TokenList(ms, tokens))
  {
    TouchShows(u, v, 0, ms, tokens);
    ListedTokens(ms, tokens);
    forall t | t in TokenList(ms, tokens) ensures IsToken(t) {
      var m :| m in ms && t == TokenOf(tokens, m.name);
    }
    AttachedFails(u, Masked(v, 0, ms, tokens), TokenList(ms, tokens));
  }

  lemma AttachedFails(u: Unicode, y: string, ts: seq<string>)
    requires Faithful(u) && ShowsAttached(u, y, ts) && forall t | t in ts :: IsToken(t)
    ensures !FieldOk(u, y, ts)
  {
    var t, p: nat :| t in ts && p <= |y| && OccursAt(y, t, p) && Attached(u, y, p, p + |t|);
    ScanIsExact(u, y, t, 0);
    assert !CleanFrom(u, y, t, 0);
    if multiset(ts) == multiset(FindAll(y)) {
      assert t in multiset(ts);
      assert t in FindAll(y);
    }
  }

  // ----- more names than four digits can number -----

  lemma MatchOfMatch(v: string)
    requires MatchLen(v) > 0
    ensures MatchLen(v[..MatchLen(v)]) == MatchLen(v)
  {
    var n := MatchLen(v);
    var x := v[..n];
    assert x[..5] == v[..5];
    assert x[5..] == v[5..n];
    LabelRunIs(x[5..], n - 11);
  }

  lemma {:induction false} FoundAreMatches(v: string, t: string)
    requires t in FindAll(v)
    ensures MatchLen(t) > 0
    decreases |v|
  {
    if v != "" {
      var n := MatchLen(v);
      if n > 0 { MatchOfMatch(v); if t != v[..n] { FoundAreMatches(v[n..], t); } } else { FoundAreMatches(v[1..], t); }
    }
  }

  lemma FiveDigitsDoNotMatch(tag: string, n: nat)
    requires Label(tag) && n >= 10000
    ensures MatchLen(Token(tag, n)) == 0
  {
    var t := Token(tag, n);
    var digits := |tag| + 6;
    assert t[..5] == TOKEN_PREFIX;
    assert t[5..] == tag + "_" + Padded(n) + "__";
    LabelRunIs(t[5..], |tag| + 1);
    assert t[digits + 4] == Padded(n)[4];
  }

  lemma TooManyNamesFail(u: Unicode, title: string, ts: seq<Match>, summary: string, ss: seq<Match>, tokens: map<string, string>, names: seq<string>,
                         translatedTitle: string, translatedSummary: string)
    requires BothMaskable(u, title, ts, summary, ss, tokens, names) && |names| >= 10000
    requires forall name | name in names :: exists m :: (m in ts || m in ss) && m.name == name
    ensures Restore(u, ProtectedWith(title, ts, summary, ss, tokens), translatedTitle, translatedSummary) == None
  {
    var name := names[9999];
    assert Numbered(tokens[name], 10000);
    var tag :| Label(tag) && tokens[name] == Token(tag, 10000);
    FiveDigitsDoNotMatch(tag, 10000);
    ExpectedTokens(ts, ss, tokens);
    ListedTokens(ts, tokens);
    ListedTokens(ss, tokens);
    var m :| (m in ts || m in ss) && m.name == name;
    if m in ts { UnfoundTokenFails(u, translatedTitle, TokenList(ts, tokens), tokens[name]); }
    else { UnfoundTokenFails(u, translatedSummary, TokenList(ss, tokens), tokens[name]); }
  }

  lemma UnfoundTokenFails(u: Unicode, v: string, expected: seq<string>, t: string)
    requires t in expected && MatchLen(t) == 0
    ensures !FieldOk(u, v, expected)
  {
    if FieldOk(u, v, expected) {
      assert t in multiset(expected);
      FoundAreMatches(v, t);
    }
  }

  // ----- the round trip -----

  /** The condition on the source: few enough names, and none next to an underscore or another one. */
  ghost predicate Restorable(u: Unicode, title: string, titleMatches: seq<Match>, summary: string, summaryMatches: seq<Match>, visible: set<Kind>)
    requires MatchesOf(title, titleMatches) && MatchesOf(summary, summaryMatches)
  {
    var ts, ss := AcceptedOf(u, title, titleMatches, visible), AcceptedOf(u, summary, summaryMatches, visible);
    && MatchesOf(title, ts) && MatchesOf(summary, ss)
    && |NamesOf(NamesOf([], ts), ss)| <= 9999 && Apart(title, ts) && Apart(summary, ss)
  }

  /** Restoring a protected but untranslated text gives back the source exactly under that condition, and
  is refused otherwise. */
  lemma RoundTrip(u: Unicode, title: string, titleMatches: seq<Match>, summary: string, summaryMatches: seq<Match>, visible: set<Kind>, mode: Mode)
    requires Faithful(u) && MatchesOf(title, titleMatches) && MatchesOf(summary, summaryMatches)
    requires !Contains(title, TOKEN_PREFIX) && !Contains(summary, TOKEN_PREFIX)
    ensures var p := Protect(u, title, titleMatches, summary, summaryMatches, visible, mode);
            && p.Some?
            && Restore(u, p.value, p.value.title, p.value.summary) ==
                 if Restorable(u, title, titleMatches, summary, summaryMatches, visible) then Some((title, summary)) else None
  {
    AcceptedAreMatches(u, title, titleMatches, visible);
    AcceptedAreMatches(u, summary, summaryMatches, visible);
    var ts, ss := AcceptedOf(u, title, titleMatches, visible), AcceptedOf(u, summary, summaryMatches, visible);
    var tokens, names := AssignAll(AssignAll(map[], ts, mode), ss, mode), NamesOf(NamesOf([], ts), ss);
    TokensOfBoth(u, title, ts, summary, ss, mode);
    if |names| > 9999 {
      var p := ProtectedWith(title, ts, summary, ss, tokens);
      TooManyNamesFail(u, title, ts, summary, ss, tokens, names, p.title, p.summary);
    } else if Apart(title, ts) && Apart(summary, ss) {
      RestoreSucceeds(u, title, ts, summary, ss, tokens, names);
    } else {
      ProtectedReplacementsOk(u, title, ts, summary, ss, tokens, names);
      ExpectedTokens(ts, ss, tokens);
      if !Apart(title, ts) { TouchingFieldFails(u, title, ts, tokens); } else { TouchingFieldFails(u, summary, ss, tokens); }
    }
  }

  lemma TokensOfBoth(u: Unicode, title: string, ts: seq<Match>, summary: string, ss: seq<Match>, mode: Mode)
    requires Faithful(u) && MatchesOf(title, ts) && MatchesOf(summary, ss) && !Contains(title, TOKEN_PREFIX) && !Contains(summary, TOKEN_PREFIX)
    requires forall m | m in ts :: m.start <= m.end <= |title| && Boundary(u, title, m.start, m.end)
    requires forall m | m in ss :: m.start <= m.end <= |summary| && Boundary(u, summary, m.start, m.end)
    ensures var (tokens, names) := (AssignAll(AssignAll(map[], ts, mode), ss, mode), NamesOf(NamesOf([], ts), ss));
            && BothMaskable(u, title, ts, summary, ss, tokens, names)
            && forall name | name in names :: exists m :: (m in ts || m in ss) && m.name == name
  {
    var first, names1 := AssignAll(map[], ts, mode), NamesOf([], ts);
    assert TokensOk(map[], []);
    AssignAllOk(map[], [], ts, mode);
    AssignAllOk(first, names1, ss, mode);
    AssignAllGrows(map[], ts, mode);
    AssignAllGrows(first, ss, mode);
    forall name | name in NamesOf(names1, ss) ensures exists m :: (m in ts || m in ss) && m.name == name {
      NamesAreMatched(names1, ss, name);
      if name in names1 { NamesAreMatched([], ts, name); }
    }
  }

  /** The same for a protection and any translation of it: an accepted one has every token of the protection
  replaced at once and none left over. */
  lemma TranslationIsSubstituted(u: Unicode, title: string, titleMatches: seq<Match>, summary: string, summaryMatches: seq<Match>,
                                 visible: set<Kind>, mode: Mode, translatedTitle: string, translatedSummary: string)
    requires Faithful(u) && MatchesOf(title, titleMatches) && MatchesOf(summary, summaryMatches)
    requires Protect(u, title, titleMatches, summary, summaryMatches, visible, mode).Some?
    ensures var p := Protect(u, title, titleMatches, summary, summaryMatches, visible, mode).value;
            match Restore(u, p, translatedTitle, translatedSummary)
            case None => true
            case Some(restored) =>
              var names := NameMap(p.replacements);
              && restored == (Substitute(translatedTitle, names), Substitute(translatedSummary, names))
              && !Contains(restored.0, TOKEN_PREFIX) && !Contains(restored.1, TOKEN_PREFIX)
  {
    AcceptedAreMatches(u, title, titleMatches, visible);
    AcceptedAreMatches(u, summary, summaryMatches, visible);
    var ts, ss := AcceptedOf(u, title, titleMatches, visible), AcceptedOf(u, summary, summaryMatches, visible);
    var tokens, names := AssignAll(AssignAll(map[], ts, mode), ss, mode), NamesOf(NamesOf([], ts), ss);
    var p := Protect(u, title, titleMatches, summary, summaryMatches, visible, mode).value;
    TokensOfBoth(u, title, ts, summary, ss, mode);
    assert p == ProtectedWith(title, ts, summary, ss, tokens);
    if |names| > 9999 {
      TooManyNamesFail(u, title, ts, summary, ss, tokens, names, translatedTitle, translatedSummary);
    } else if Restore(u, p, translatedTitle, translatedSummary).Some? {
      ProtectedReplacementsOk(u, title, ts, summary, ss, tokens, names);
      RestoredTextIsSubstituted(u, p, translatedTitle, translatedSummary);
    }
  }
}
