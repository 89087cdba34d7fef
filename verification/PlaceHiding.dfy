/** What protecting a text hides: which names, behind which tokens, and that all other text stays. */
module PlaceHiding {
  import opened Rows
  import opened PlaceTokens
  import opened PlaceProtection

  // ----- which names -----

  /** The name may be hidden here: its context holds, its kind is not to stay visible, and it is no part of a word. */
  ghost predicate IsHidden(u: Unicode, v: string, m: Match, visible: set<Kind>) {
    && m.start <= m.end <= |v| && m.context && m.kind !in visible
    && !(m.start > 0 && u.wordy(v[m.start - 1])) && !(m.end < |v| && u.wordy(v[m.end]))
  }

  /** Exactly the names to hide, in the order of the text. */
  ghost predicate AreHidden(u: Unicode, v: string, ms: seq<Match>, visible: set<Kind>, hidden: seq<Match>) {
    && (forall m :: m in hidden <==> m in ms && IsHidden(u, v, m, visible))
    && (forall i, j | 0 <= i < j < |hidden| :: hidden[i].end <= hidden[j].start)
  }

  lemma {:induction false} AcceptedAreHidden(u: Unicode, v: string, ms: seq<Match>, visible: set<Kind>)
    requires MatchesOf(v, ms)
    ensures AreHidden(u, v, ms, visible, AcceptedOf(u, v, ms, visible))
  {
    AcceptedAreMatches(u, v, ms, visible);
    AllHiddenAccepted(u, v, ms, visible);
    forall m | m in ms ensures m.start <= m.end <= |v| {}
  }

  lemma {:induction false} AllHiddenAccepted(u: Unicode, v: string, ms: seq<Match>, visible: set<Kind>)
    ensures forall m | m in ms && IsHidden(u, v, m, visible) :: m in AcceptedOf(u, v, ms, visible)
  {
    if ms != [] { AllHiddenAccepted(u, v, ms[1..], visible); }
  }

  // ----- the text -----

  /** The text is the source with the spans of the names replaced: `at` is where their tokens stand. Between two names, before
  the first and after the last it is the source. */
  ghost predicate IsWovenAt(v: string, from: int, hidden: seq<Match>, tokens: seq<string>, text: string, at: seq<int>) {
    && |at| == |tokens| == |hidden| && (forall k | 0 <= k < |at| :: StandsAt(tokens[k], text, at[k]))
    && (forall k | 0 <= k <= |at| :: IsGapBefore(v, from, hidden, tokens, text, at, k))
  }

  ghost predicate IsWoven(v: string, hidden: seq<Match>, tokens: seq<string>, text: string) { exists at :: IsWovenAt(v, 0, hidden, tokens, text, at) }

  ghost predicate StandsAt(token: string, text: string, p: int) {
    0 <= p && p + |token| <= |text| && text[p..p + |token|] == token
  }

  /** What is before the k-th token is what is before the k-th name. */
  ghost predicate IsGapBefore(v: string, from: int, hidden: seq<Match>, tokens: seq<string>, text: string, at: seq<int>, k: int)
    requires |at| == |tokens| == |hidden| && 0 <= k <= |at|
  {
    IsGap(v, EndInSource(from, hidden, k), StartInSource(v, hidden, k), text, EndInText(tokens, at, k), StartInText(text, at, k))
  }

  ghost predicate IsGap(v: string, i: int, j: int, text: string, a: int, b: int) {
    0 <= i <= j <= |v| && 0 <= a <= b <= |text| && text[a..b] == v[i..j]
  }

  ghost function EndInSource(from: int, hidden: seq<Match>, k: int): int
    requires 0 <= k <= |hidden|
  {
    if k == 0 then from else hidden[k - 1].end
  }

  ghost function StartInSource(v: string, hidden: seq<Match>, k: int): int
    requires 0 <= k <= |hidden|
  {
    if k == |hidden| then |v| else hidden[k].start
  }

  ghost function EndInText(tokens: seq<string>, at: seq<int>, k: int): int
    requires 0 <= k <= |at| == |tokens|
  {
    if k == 0 then 0 else at[k - 1] + |tokens[k - 1]|
  }

  ghost function StartInText(text: string, at: seq<int>, k: int): int
    requires 0 <= k <= |at|
  {
    if k == |at| then |text| else at[k]
  }

  function TokensFor(ms: seq<Match>, tokens: map<string, string>): (ts: seq<string>)
    ensures |ts| == |ms| && forall i | 0 <= i < |ms| :: ts[i] == TokenOf(tokens, ms[i].name)
  {
    seq(|ms|, i requires 0 <= i < |ms| => TokenOf(tokens, ms[i].name))
  }

  lemma {:induction false} MaskedIsWoven(v: string, from: nat, ms: seq<Match>, tokens: map<string, string>) returns (at: seq<int>)
    requires from <= |v| && MatchesOf(v, ms) && (ms != [] ==> from <= ms[0].start)
    ensures IsWovenAt(v, from, ms, TokensFor(ms, tokens), Masked(v, from, ms, tokens), at)
    decreases |ms|
  {
    var text := Masked(v, from, ms, tokens);
    if ms == [] {
      at := [];
      assert text[0..|text|] == v[from..|v|];
    } else {
      var g, x := v[from..ms[0].start], TokenOf(tokens, ms[0].name);
      RestStays(v, ms);
      var rest := Masked(v, ms[0].end, ms[1..], tokens);
      var later := MaskedIsWoven(v, ms[0].end, ms[1..], tokens);
      at := [|g|] + Shifted(later, |g| + |x|);
      assert TokensFor(ms, tokens)[1..] == TokensFor(ms[1..], tokens);
      WovenInFront(v, from, ms, TokensFor(ms, tokens), g, x, rest, later, at);
    }
  }

  lemma RestStays(v: string, ms: seq<Match>)
    requires MatchesOf(v, ms) && ms != []
    ensures MatchesOf(v, ms[1..]) && (|ms| > 1 ==> ms[0].end <= ms[1].start)
  {
  }

  function Shifted(at: seq<int>, n: int): (shifted: seq<int>)
    ensures |shifted| == |at| && forall i | 0 <= i < |at| :: shifted[i] == at[i] + n
  {
    seq(|at|, i requires 0 <= i < |at| => at[i] + n)
  }

  lemma WovenInFront(v: string, from: nat, ms: seq<Match>, tokens: seq<string>, g: string, x: string, rest: string, later: seq<int>, at: seq<int>)
    requires ms != [] && |tokens| == |ms| && tokens[0] == x && from <= ms[0].start <= |v| && g == v[from..ms[0].start]
    requires IsWovenAt(v, ms[0].end, ms[1..], tokens[1..], rest, later) && at == [|g|] + Shifted(later, |g| + |x|)
    ensures IsWovenAt(v, from, ms, tokens, g + (x + rest), at)
  {
    forall k | 0 <= k < |at| ensures StandsAt(tokens[k], g + (x + rest), at[k]) {
      if k > 0 {
        assert StandsAt(tokens[1..][k - 1], rest, later[k - 1]);
        InTheRest(g, x, rest, later[k - 1], later[k - 1] + |tokens[k]|);
      }
    }
    forall k | 0 <= k <= |at| ensures IsGapBefore(v, from, ms, tokens, g + (x + rest), at, k) {
      if k > 0 { LaterGap(v, from, ms, tokens, g, x, rest, later, at, k); } else { assert (g + (x + rest))[0..|g|] == g; }
    }
  }

  lemma LaterGap(v: string, from: nat, ms: seq<Match>, tokens: seq<string>, g: string, x: string, rest: string, later: seq<int>, at: seq<int>, k: int)
    requires |tokens| == |ms| == |at| && 0 < k <= |at| && tokens[0] == x && at == [|g|] + Shifted(later, |g| + |x|) && |later| == |ms| - 1
    requires IsGapBefore(v, ms[0].end, ms[1..], tokens[1..], rest, later, k - 1)
    ensures IsGapBefore(v, from, ms, tokens, g + (x + rest), at, k)
  {
    var n := |g| + |x|;
    var a, b := EndInText(tokens[1..], later, k - 1), StartInText(rest, later, k - 1);
    InTheRest(g, x, rest, a, b);
    assert EndInText(tokens, at, k) == n + a && StartInText(g + (x + rest), at, k) == n + b;
    assert EndInSource(from, ms, k) == EndInSource(ms[0].end, ms[1..], k - 1) && StartInSource(v, ms, k) == StartInSource(v, ms[1..], k - 1);
  }

  lemma InTheRest(g: string, x: string, rest: string, a: int, b: int)
    requires 0 <= a <= b <= |rest|
    ensures var n := |g| + |x|; n + b <= |g + (x + rest)| && (g + (x + rest))[n + a..n + b] == rest[a..b]
  {
  }

  // ----- the tokens -----

  /** Four digits or more, without a needless zero in front, that write the number. */
  ghost predicate Writes(digits: string, n: nat) {
    && |digits| >= 4 && (|digits| > 4 ==> digits[0] != '0') && (forall i | 0 <= i < |digits| :: '0' <= digits[i] <= '9')
    && NumberOf(digits) == n
  }

  ghost function NumberOf(digits: string): int {
    if digits == "" then 0 else 10 * NumberOf(digits[..|digits| - 1]) + (digits[|digits| - 1] as int - '0' as int)
  }

  ghost const LABELS := map[
    Street := "STREET", District := "DISTRICT", Neighbourhood := "NEIGHBOURHOOD", Municipality := "MUNICIPALITY", Transit := "TRANSIT",
    Park := "PARK", Square := "SQUARE", Landmark := "LANDMARK", TrainStation := "TRAIN_STATION", CommuterTrain := "COMMUTER_TRAIN",
    SubwaySystem := "SUBWAY_SYSTEM"]

  /** The token with this number, and with the label of the kind if labels are wanted. */
  ghost predicate IsTokenWith(token: string, kind: Kind, mode: Mode, n: nat) {
    var tag := if mode == Typed && kind in LABELS then LABELS[kind] else "PLACE";
    exists digits :: Writes(digits, n) && token == "__MB_" + tag + "_" + digits + "__"
  }

  /** The first mention of a name among all hidden ones. */
  ghost predicate IsFirstMention(all: seq<Match>, k: int) {
    0 <= k < |all| && forall i | 0 <= i < k :: all[i].name != all[k].name
  }

  ghost predicate AreAmong(all: seq<Match>, k: int, names: seq<string>) { forall i | 0 <= i < k <= |all| :: all[i].name in names }

  /** The names in the order of their first mentions. */
  ghost predicate IsListOfNames(all: seq<Match>, names: seq<string>) {
    && (forall m, n | 0 <= m < n < |names| :: names[m] != names[n])
    && (forall k | 0 <= k < |all| :: all[k].name in names)
    && (forall n | 0 <= n < |names| :: IsMentioned(all, names, n))
  }

  /** Before the first mention of the name only names before it in the list are mentioned. */
  ghost predicate IsMentioned(all: seq<Match>, names: seq<string>, n: int) { exists k :: IsMentionAt(all, names, n, k) }

  ghost predicate IsMentionAt(all: seq<Match>, names: seq<string>, n: int, k: int) {
    0 <= n < |names| && IsFirstMention(all, k) && all[k].name == names[n] && AreAmong(all, k, names[..n])
  }

  /** Every mention of a name has the same token: numbered by the first mention and labelled by its kind. */
  ghost predicate AreNumbered(all: seq<Match>, mode: Mode, tokens: seq<string>) {
    |tokens| == |all| && exists names :: IsListOfNames(all, names) && forall i | 0 <= i < |all| :: IsNumbered(all, names, mode, i, tokens[i])
  }

  ghost predicate IsNumbered(all: seq<Match>, names: seq<string>, mode: Mode, i: int, token: string)
    requires 0 <= i < |all|
  {
    forall n: nat, k | n < |names| && IsFirstMention(all, k) && all[k].name == names[n] == all[i].name :: IsTokenWith(token, all[k].kind, mode, n + 1)
  }

  lemma {:induction false} PaddedWrites(n: nat)
    ensures Writes(Padded(n), n)
  {
    if n < 10000 {
      var digits := Padded(n);
      assert digits[..3][..2][..1][..0] == "" && digits[..3][..2][..1] == [digits[0]] && digits[..3][..2] == [digits[0], digits[1]];
      assert digits[..3] == [digits[0], digits[1], digits[2]];
      assert NumberOf(digits[..3][..2][..1]) == n / 10 / 10 / 10;
      assert NumberOf(digits[..3][..2]) == n / 10 / 10;
      assert NumberOf(digits[..3]) == n / 10;
    } else {
      PaddedWrites(n / 10);
      assert Padded(n)[..|Padded(n)| - 1] == Padded(n / 10);
      if n / 10 < 10000 { assert n / 10 / 10 / 10 / 10 > 0; }
    }
  }

  lemma TokenIs(kind: Kind, mode: Mode, n: nat)
    ensures IsTokenWith(Token(LabelOf(kind, mode), n), kind, mode, n)
  {
    PaddedWrites(n);
  }

  /** The tokens given so far belong to the names mentioned so far. */
  ghost predicate IsTable(tokens: map<string, string>, names: seq<string>, done: seq<Match>, mode: Mode) {
    && |names| == |tokens| && IsListOfNames(done, names) && AreKnown(tokens, names) && (forall name | name in tokens :: name in names)
    && AreTokens(tokens, names, done, mode)
  }

  ghost predicate AreKnown(tokens: map<string, string>, names: seq<string>) { forall name | name in names :: name in tokens }

  ghost predicate AreTokens(tokens: map<string, string>, names: seq<string>, done: seq<Match>, mode: Mode)
    requires AreKnown(tokens, names)
  {
    forall n, k | 0 <= n < |names| && IsFirstMention(done, k) && done[k].name == names[n] ::
      tokens[names[n]] == Token(LabelOf(done[k].kind, mode), n + 1)
  }

  lemma MentionStays(names: seq<string>, longer: seq<string>, done: seq<Match>, m: Match, n: int)
    requires IsMentioned(done, names, n) && names <= longer
    ensures IsMentioned(done + [m], longer, n)
  {
    var k :| IsMentionAt(done, names, n, k);
    assert longer[..n] == names[..n];
    assert IsMentionAt(done + [m], longer, n, k);
  }

  lemma OldName(names: seq<string>, done: seq<Match>, m: Match)
    requires IsListOfNames(done, names) && m.name in names
    ensures IsListOfNames(done + [m], names)
  {
    forall n | 0 <= n < |names| ensures IsMentioned(done + [m], names, n) { MentionStays(names, names, done, m, n); }
  }

  lemma NewName(names: seq<string>, done: seq<Match>, m: Match)
    requires IsListOfNames(done, names) && m.name !in names
    ensures IsListOfNames(done + [m], names + [m.name])
  {
    var more, longer := done + [m], names + [m.name];
    forall n | 0 <= n < |longer| ensures IsMentioned(more, longer, n) {
      if n < |names| {
        MentionStays(names, longer, done, m, n);
      } else {
        assert longer[..n] == names;
        assert IsMentionAt(more, longer, n, |done|);
      }
    }
  }

  lemma FirstMentionStays(done: seq<Match>, m: Match, k: int)
    requires IsFirstMention(done + [m], k)
    ensures k < |done| ==> IsFirstMention(done, k) && (done + [m])[k] == done[k]
    ensures k == |done| ==> forall i | 0 <= i < |done| :: done[i].name != m.name
  {
    forall i | 0 <= i < k ensures (done + [m])[i] == done[i] {}
  }

  lemma MentionedBefore(names: seq<string>, done: seq<Match>, name: string)
    requires IsListOfNames(done, names) && forall i | 0 <= i < |done| :: done[i].name != name
    ensures name !in names
  {
    forall n | 0 <= n < |names| ensures names[n] != name { assert IsMentioned(done, names, n); }
  }

  lemma OldTokens(tokens: map<string, string>, names: seq<string>, done: seq<Match>, m: Match, mode: Mode)
    requires IsTable(tokens, names, done, mode) && m.name in names
    ensures AreTokens(tokens, names, done + [m], mode)
  {
    forall n, k | 0 <= n < |names| && IsFirstMention(done + [m], k) && (done + [m])[k].name == names[n]
      ensures tokens[names[n]] == Token(LabelOf((done + [m])[k].kind, mode), n + 1)
    {
      FirstMentionStays(done, m, k);
      if k == |done| { MentionedBefore(names, done, m.name); }
    }
  }

  lemma NewToken(tokens: map<string, string>, names: seq<string>, done: seq<Match>, m: Match, mode: Mode, n: int, k: int)
    requires IsListOfNames(done, names) && AreKnown(tokens, names) && AreTokens(tokens, names, done, mode) && m.name !in names
    requires 0 <= n <= |names| && IsFirstMention(done + [m], k) && (done + [m])[k].name == (names + [m.name])[n]
    ensures if n < |names| then k < |done| && tokens[names[n]] == Token(LabelOf((done + [m])[k].kind, mode), n + 1)
            else k == |done| && (done + [m])[k] == m
  {
    FirstMentionStays(done, m, k);
    if k < |done| { assert done[k].name in names; }
  }

  lemma NewTokens(tokens: map<string, string>, names: seq<string>, done: seq<Match>, m: Match, mode: Mode, after: map<string, string>, longer: seq<string>)
    requires IsListOfNames(done, names) && AreKnown(tokens, names) && AreTokens(tokens, names, done, mode) && m.name !in names
    requires after == tokens[m.name := Token(LabelOf(m.kind, mode), |names| + 1)] && longer == names + [m.name]
    ensures AreKnown(after, longer) && AreTokens(after, longer, done + [m], mode)
  {
    forall n, k | 0 <= n < |longer| && IsFirstMention(done + [m], k) && (done + [m])[k].name == longer[n]
      ensures after[longer[n]] == Token(LabelOf((done + [m])[k].kind, mode), n + 1)
    {
      NewToken(tokens, names, done, m, mode, n, k);
    }
  }

  lemma AssignOne(tokens: map<string, string>, names: seq<string>, done: seq<Match>, m: Match, mode: Mode)
    returns (after: map<string, string>, longer: seq<string>)
    requires IsTable(tokens, names, done, mode)
    ensures after == Assign(tokens, m, mode) && longer == NamesAfter(names, m) && IsTable(after, longer, done + [m], mode)
  {
    after, longer := tokens, names;
    if m.name in names {
      OldName(names, done, m);
      OldTokens(tokens, names, done, m, mode);
    } else {
      after, longer := tokens[m.name := Token(LabelOf(m.kind, mode), |names| + 1)], names + [m.name];
      NewName(names, done, m);
      NewTokens(tokens, names, done, m, mode, after, longer);
      assert after.Keys == tokens.Keys + {m.name};
    }
  }

  lemma {:induction false} AssignMany(tokens: map<string, string>, names: seq<string>, done: seq<Match>, ms: seq<Match>, all: seq<Match>, mode: Mode)
    returns (after: map<string, string>, longer: seq<string>)
    requires IsTable(tokens, names, done, mode) && all == done + ms
    ensures after == AssignAll(tokens, ms, mode) && IsTable(after, longer, all, mode)
    decreases |ms|
  {
    if ms == [] {
      assert all == done;
      after, longer := tokens, names;
    } else {
      after, longer := AssignOne(tokens, names, done, ms[0], mode);
      OneMore(done, ms, all);
      after, longer := AssignMany(after, longer, done + [ms[0]], ms[1..], all, mode);
    }
  }

  lemma OneMore(done: seq<Match>, ms: seq<Match>, all: seq<Match>)
    requires ms != [] && all == done + ms
    ensures all == (done + [ms[0]]) + ms[1..]
  {
  }

  lemma TableNumbers(tokens: map<string, string>, names: seq<string>, all: seq<Match>, mode: Mode)
    requires IsTable(tokens, names, all, mode)
    ensures AreNumbered(all, mode, TokensFor(all, tokens))
  {
    forall i | 0 <= i < |all| ensures IsNumbered(all, names, mode, i, TokensFor(all, tokens)[i]) {
      forall n: nat, k | n < |names| && IsFirstMention(all, k) && all[k].name == names[n] == all[i].name
        ensures IsTokenWith(TokensFor(all, tokens)[i], all[k].kind, mode, n + 1)
      {
        TokenIs(all[k].kind, mode, n + 1);
      }
    }
  }

  // ----- both fields -----

  /** The replacements list the hidden names of the field, each with its own text and kind. */
  ghost predicate AreListed(hidden: seq<Match>, field: Field, rs: seq<Replacement>) {
    && |rs| == |hidden|
    && forall k | 0 <= k < |rs| :: rs[k].original == hidden[k].name && rs[k].field == field && rs[k].kind == hidden[k].kind
  }

  ghost predicate IsMarked(v: string) { exists p :: IsMarkAt(v, p) }

  ghost predicate IsMarkAt(v: string, p: int) { 0 <= p && p + 5 <= |v| && v[p..p + 5] == "__MB_" }

  function Tokens(rs: seq<Replacement>): (ts: seq<string>)
    ensures |ts| == |rs| && forall k | 0 <= k < |rs| :: ts[k] == rs[k].token
  {
    seq(|rs|, k requires 0 <= k < |rs| => rs[k].token)
  }

  /** Refused exactly for a text with the mark of tokens. Otherwise both fields have exactly their hidden names replaced by
  the listed tokens, which number the names of both fields together, and keep all other text. */
  ghost predicate IsProtection(u: Unicode, title: string, titleMatches: seq<Match>, summary: string, summaryMatches: seq<Match>, visible: set<Kind>,
                               mode: Mode, p: Option<Protected>) {
    if IsMarked(title) || IsMarked(summary) then p == None
    else p.Some? && exists ts, ss :: AreHidden(u, title, titleMatches, visible, ts) && AreHidden(u, summary, summaryMatches, visible, ss) &&
                                     IsProtectedBy(title, ts, summary, ss, mode, p.value)
  }

  ghost predicate IsProtectedBy(title: string, ts: seq<Match>, summary: string, ss: seq<Match>, mode: Mode, p: Protected) {
    && |p.replacements| == |ts| + |ss|
    && var (first, second) := (p.replacements[..|ts|], p.replacements[|ts|..]);
    && AreListed(ts, Title, first) && AreListed(ss, Summary, second) && AreNumbered(ts + ss, mode, Tokens(p.replacements))
    && IsWoven(title, ts, Tokens(first), p.title) && IsWoven(summary, ss, Tokens(second), p.summary)
  }

  lemma MarkIs(v: string)
    ensures IsMarked(v) <==> Contains(v, TOKEN_PREFIX)
  {
    if p :| IsMarkAt(v, p) {
      assert v[p..][..5] == v[p..p + 5];
      assert OccursAt(v, TOKEN_PREFIX, p);
    }
    if p: nat :| p <= |v| && OccursAt(v, TOKEN_PREFIX, p) {
      assert v[p..p + 5] == v[p..][..5];
      assert IsMarkAt(v, p);
    }
  }

  lemma ProtectionIs(u: Unicode, title: string, titleMatches: seq<Match>, summary: string, summaryMatches: seq<Match>, visible: set<Kind>, mode: Mode)
    requires MatchesOf(title, titleMatches) && MatchesOf(summary, summaryMatches)
    ensures IsProtection(u, title, titleMatches, summary, summaryMatches, visible, mode,
                         Protect(u, title, titleMatches, summary, summaryMatches, visible, mode))
  {
    MarkIs(title);
    MarkIs(summary);
    if !IsMarked(title) && !IsMarked(summary) {
      var ts, ss := AcceptedOf(u, title, titleMatches, visible), AcceptedOf(u, summary, summaryMatches, visible);
      AcceptedAreHidden(u, title, titleMatches, visible);
      AcceptedAreHidden(u, summary, summaryMatches, visible);
      AcceptedAreMatches(u, title, titleMatches, visible);
      AcceptedAreMatches(u, summary, summaryMatches, visible);
      ProtectedIs(title, ts, summary, ss, mode);
    }
  }

  lemma ProtectedIs(title: string, ts: seq<Match>, summary: string, ss: seq<Match>, mode: Mode)
    requires MatchesOf(title, ts) && MatchesOf(summary, ss)
    ensures var tokens := AssignAll(AssignAll(map[], ts, mode), ss, mode);
            IsProtectedBy(title, ts, summary, ss, mode,
                          Protected(Masked(title, 0, ts, tokens), Masked(summary, 0, ss, tokens),
                                    ReplacementsOf(ts, Title, tokens) + ReplacementsOf(ss, Summary, tokens)))
  {
    assert ts == [] + ts;
    var first, names := AssignMany(map[], [], [], ts, ts, mode);
    var tokens;
    tokens, names := AssignMany(first, names, ts, ss, ts + ss, mode);
    TableNumbers(tokens, names, ts + ss, mode);
    var p := Protected(Masked(title, 0, ts, tokens), Masked(summary, 0, ss, tokens), ReplacementsOf(ts, Title, tokens) + ReplacementsOf(ss, Summary, tokens));
    BothAreListed(title, ts, summary, ss, mode, tokens, p);
  }

  lemma BothAreListed(title: string, ts: seq<Match>, summary: string, ss: seq<Match>, mode: Mode, tokens: map<string, string>, p: Protected)
    requires MatchesOf(title, ts) && MatchesOf(summary, ss) && AreNumbered(ts + ss, mode, TokensFor(ts + ss, tokens))
    requires p.title == Masked(title, 0, ts, tokens) && p.summary == Masked(summary, 0, ss, tokens)
    requires p.replacements == ReplacementsOf(ts, Title, tokens) + ReplacementsOf(ss, Summary, tokens)
    ensures IsProtectedBy(title, ts, summary, ss, mode, p)
  {
    TokensAreListed(ts, ss, tokens, ReplacementsOf(ts, Title, tokens), ReplacementsOf(ss, Summary, tokens));
    var at := MaskedIsWoven(title, 0, ts, tokens);
    var there := MaskedIsWoven(summary, 0, ss, tokens);
    assert IsWoven(title, ts, TokensFor(ts, tokens), p.title) && IsWoven(summary, ss, TokensFor(ss, tokens), p.summary);
  }

  lemma TokensAreListed(ts: seq<Match>, ss: seq<Match>, tokens: map<string, string>, first: seq<Replacement>, second: seq<Replacement>)
    requires first == ReplacementsOf(ts, Title, tokens) && second == ReplacementsOf(ss, Summary, tokens)
    ensures (first + second)[..|ts|] == first && (first + second)[|ts|..] == second
    ensures Tokens(first + second) == TokensFor(ts + ss, tokens) && Tokens(first) == TokensFor(ts, tokens) && Tokens(second) == TokensFor(ss, tokens)
  {
  }
}
