/** Protecting place names before a translation and restoring them after it. */
module PlaceProtection {
  import opened Rows
  import opened PlaceTokens

  datatype Field = Title | Summary
  datatype Mode = Opaque | Typed
  datatype Kind = Street | District | Neighbourhood | Municipality | Transit | Park | Square | Landmark
    | TrainStation | CommuterTrain | SubwaySystem | OtherKind

  /** A match of the automaton: an exact occurrence of a name. `context` stands for the conditions on short
  and ambiguous names. */
  datatype Match = Match(start: nat, end: nat, name: string, kind: Kind, context: bool)

  datatype Replacement = Replacement(token: string, original: string, field: Field, kind: Kind)
  datatype Protected = Protected(title: string, summary: string, replacements: seq<Replacement>)

  /** Letters, digits and marks, and Han characters, as the Unicode tables classify them. */
  datatype Unicode = Unicode(wordy: char -> bool, han: char -> bool)

  ghost predicate Faithful(u: Unicode) {
    && (forall c: char | Upper(c) || Digit(c) :: u.wordy(c) && !u.han(c))
    && !u.han('_')
  }

  /** tokenAttachment */
  predicate Attaches(u: Unicode, c: char) { !u.han(c) && (u.wordy(c) || c == '_') }

  lemma WordAttaches(u: Unicode, c: char)
    requires Faithful(u) && Word(c)
    ensures Attaches(u, c) && (c == '_' || u.wordy(c))
  {
  }

  // ----- protecting -----

  /** Matches come in the order of the text and do not overlap. */
  ghost predicate MatchesOf(v: string, ms: seq<Match>) {
    && (forall i | 0 <= i < |ms| :: ms[i].start < ms[i].end <= |v| && v[ms[i].start..ms[i].end] == ms[i].name)
    && (forall i, j | 0 <= i < j < |ms| :: ms[i].end <= ms[j].start)
  }

  /** unicodeBoundary */
  predicate Boundary(u: Unicode, v: string, start: nat, end: nat)
    requires start <= end <= |v|
  {
    (start > 0 ==> !u.wordy(v[start - 1])) && (end < |v| ==> !u.wordy(v[end]))
  }

  predicate Accepted(u: Unicode, v: string, m: Match, visible: set<Kind>) {
    m.start <= m.end <= |v| && Boundary(u, v, m.start, m.end) && m.context && m.kind !in visible
  }

  function AcceptedOf(u: Unicode, v: string, ms: seq<Match>, visible: set<Kind>): seq<Match> {
    if ms == [] then []
    else (if Accepted(u, v, ms[0], visible) then [ms[0]] else []) + AcceptedOf(u, v, ms[1..], visible)
  }

  function PlaceholderLabel(kind: Kind): string {
    match kind
    case Street => "STREET"
    case District => "DISTRICT"
    case Neighbourhood => "NEIGHBOURHOOD"
    case Municipality => "MUNICIPALITY"
    case Transit => "TRANSIT"
    case Park => "PARK"
    case Square => "SQUARE"
    case Landmark => "LANDMARK"
    case TrainStation => "TRAIN_STATION"
    case CommuterTrain => "COMMUTER_TRAIN"
    case SubwaySystem => "SUBWAY_SYSTEM"
    case OtherKind => "PLACE"
  }

  function LabelOf(kind: Kind, mode: Mode): string { if mode == Typed then PlaceholderLabel(kind) else "PLACE" }

  lemma PlaceLabels()
    ensures Label("STREET") && Label("DISTRICT") && Label("NEIGHBOURHOOD") && Label("MUNICIPALITY") && Label("PARK") && Label("SQUARE")
  {
  }

  lemma TransitLabels()
    ensures Label("LANDMARK") && Label("TRANSIT") && Label("TRAIN_STATION") && Label("COMMUTER_TRAIN") && Label("SUBWAY_SYSTEM") && Label("PLACE")
  {
  }

  lemma LabelsAreLabels(kind: Kind, mode: Mode)
    ensures Label(LabelOf(kind, mode))
  {
    PlaceLabels();
    TransitLabels();
  }

  /** Names get numbered tokens in the order in which they are first seen. */
  function Assign(tokens: map<string, string>, m: Match, mode: Mode): map<string, string> {
    if m.name in tokens then tokens else tokens[m.name := Token(LabelOf(m.kind, mode), |tokens| + 1)]
  }

  function AssignAll(tokens: map<string, string>, ms: seq<Match>, mode: Mode): map<string, string>
    decreases |ms|
  {
    if ms == [] then tokens else AssignAll(Assign(tokens, ms[0], mode), ms[1..], mode)
  }

  function TokenOf(tokens: map<string, string>, name: string): string { if name in tokens then tokens[name] else "" }

  /** The text from `from` on, with every match replaced by its token. */
  function Masked(v: string, from: nat, ms: seq<Match>, tokens: map<string, string>): string
    requires from <= |v| && MatchesOf(v, ms) && (ms != [] ==> from <= ms[0].start)
    decreases |ms|
  {
    if ms == [] then v[from..]
    else v[from..ms[0].start] + (TokenOf(tokens, ms[0].name) + Masked(v, ms[0].end, ms[1..], tokens))
  }

  function ReplacementsOf(ms: seq<Match>, field: Field, tokens: map<string, string>): (rs: seq<Replacement>)
    ensures |rs| == |ms|
    ensures forall i | 0 <= i < |ms| :: rs[i] == Replacement(TokenOf(tokens, ms[i].name), ms[i].name, field, ms[i].kind)
  {
    seq(|ms|, i requires 0 <= i < |ms| => Replacement(TokenOf(tokens, ms[i].name), ms[i].name, field, ms[i].kind))
  }

  lemma {:induction false} AcceptedAreMatches(u: Unicode, v: string, ms: seq<Match>, visible: set<Kind>)
    requires MatchesOf(v, ms)
    ensures MatchesOf(v, AcceptedOf(u, v, ms, visible))
    ensures forall m | m in AcceptedOf(u, v, ms, visible) :: m in ms && Accepted(u, v, m, visible)
  {
    if ms != [] {
      AcceptedAreMatches(u, v, ms[1..], visible);
      var rest := AcceptedOf(u, v, ms[1..], visible);
      forall m | m in ms[1..] ensures ms[0].end <= m.start {}
      if Accepted(u, v, ms[0], visible) {
        assert forall j | 0 <= j < |rest| :: rest[j] in ms[1..];
        MatchInFront(v, ms[0], rest);
      }
    }
  }

  lemma MatchInFront(v: string, m: Match, rest: seq<Match>)
    requires MatchesOf(v, rest) && m.start < m.end <= |v| && v[m.start..m.end] == m.name
    requires forall j | 0 <= j < |rest| :: m.end <= rest[j].start
    ensures MatchesOf(v, [m] + rest)
  {
  }

  /** ProtectWithOptions: None when the source already contains the token prefix. */
  function Protect(u: Unicode, title: string, titleMatches: seq<Match>, summary: string, summaryMatches: seq<Match>,
                   visible: set<Kind>, mode: Mode): Option<Protected>
    requires MatchesOf(title, titleMatches) && MatchesOf(summary, summaryMatches)
  {
    if Contains(title, TOKEN_PREFIX) || Contains(summary, TOKEN_PREFIX) then None else
      AcceptedAreMatches(u, title, titleMatches, visible);
      AcceptedAreMatches(u, summary, summaryMatches, visible);
      var ts, ss := AcceptedOf(u, title, titleMatches, visible), AcceptedOf(u, summary, summaryMatches, visible);
      var tokens := AssignAll(AssignAll(map[], ts, mode), ss, mode);
      Some(Protected(Masked(title, 0, ts, tokens), Masked(summary, 0, ss, tokens),
                     ReplacementsOf(ts, Title, tokens) + ReplacementsOf(ss, Summary, tokens)))
  }

  // ----- restoring -----

  function Expected(rs: seq<Replacement>, field: Field): (tokens: seq<string>)
    ensures forall t | t in tokens :: exists r :: r in rs && r.token == t
    ensures forall r | r in rs && r.field == field :: r.token in tokens
  {
    if rs == [] then [] else (if rs[0].field == field then [rs[0].token] else []) + Expected(rs[1..], field)
  }

  /** The occurrence is attached to a word or a suffix. */
  predicate Attached(u: Unicode, v: string, start: nat, end: nat)
    requires start <= end <= |v|
  {
    (start > 0 && Attaches(u, v[start - 1])) || (end < |v| && Attaches(u, v[end]))
  }

  /** standaloneToken, which looks at the occurrences from left to right, each after the end of the one before. */
  predicate StandaloneFrom(u: Unicode, v: string, t: string, offset: nat)
    requires offset <= |v| && |t| > 0
    decreases |v| - offset
  {
    if offset == |v| then true
    else if OccursAt(v, t, offset) then !Attached(u, v, offset, offset + |t|) && StandaloneFrom(u, v, t, offset + |t|)
    else StandaloneFrom(u, v, t, offset + 1)
  }

  /** Both checks on one field. */
  predicate FieldOk(u: Unicode, v: string, expected: seq<string>) {
    && multiset(expected) == multiset(FindAll(v))
    && (forall t | t in FindAll(v) :: |t| > 0 && StandaloneFrom(u, v, t, 0))
  }

  function ReplaceEach(v: string, rs: seq<Replacement>, restored: set<string>): string
    decreases |rs|
  {
    if rs == [] then v
    else if rs[0].token in restored || rs[0].token == "" then ReplaceEach(v, rs[1..], restored)
    else ReplaceEach(ReplaceAll(v, rs[0].token, rs[0].original), rs[1..], restored + {rs[0].token})
  }

  function Restore(u: Unicode, p: Protected, title: string, summary: string): Option<(string, string)> {
    if !FieldOk(u, title, Expected(p.replacements, Title)) || !FieldOk(u, summary, Expected(p.replacements, Summary)) then None
    else
      var t, s := ReplaceEach(title, p.replacements, {}), ReplaceEach(summary, p.replacements, {});
      if Contains(t, TOKEN_PREFIX) || Contains(s, TOKEN_PREFIX) then None else Some((t, s))
  }

  // ----- the numbering -----

  /** The token of a name is printed with this number. */
  ghost predicate Numbered(token: string, n: int) {
    n >= 0 && exists tag :: Label(tag) && token == Token(tag, n)
  }

  lemma NumberedToken(tag: string, n: nat)
    requires Label(tag)
    ensures Numbered(Token(tag, n), n)
  {
  }

  lemma NumberIsUnique(token: string, m: int, n: int)
    requires Numbered(token, m) && Numbered(token, n) && m < 10000 && n < 10000
    ensures m == n
  {
    var x :| Label(x) && token == Token(x, m);
    var y :| Label(y) && token == Token(y, n);
    TokenNumber(x, m, y, n);
  }

  ghost predicate NumbersOk(tokens: map<string, string>, names: seq<string>) {
    forall i | 0 <= i < |names| :: names[i] in tokens && Numbered(tokens[names[i]], i + 1)
  }

  /** The names in the order of their numbers. */
  ghost predicate TokensOk(tokens: map<string, string>, names: seq<string>) {
    && |names| == |tokens| && NumbersOk(tokens, names)
    && (forall name | name in tokens :: name in names)
  }

  function NamesAfter(names: seq<string>, m: Match): seq<string> {
    if m.name in names then names else names + [m.name]
  }

  function NamesOf(names: seq<string>, ms: seq<Match>): seq<string>
    decreases |ms|
  {
    if ms == [] then names else NamesOf(NamesAfter(names, ms[0]), ms[1..])
  }

  lemma AssignOk(tokens: map<string, string>, names: seq<string>, m: Match, mode: Mode)
    requires TokensOk(tokens, names)
    ensures TokensOk(Assign(tokens, m, mode), NamesAfter(names, m))
  {
    if m.name !in names {
      LabelsAreLabels(m.kind, mode);
      assert m.name !in tokens;
      NumberedToken(LabelOf(m.kind, mode), |names| + 1);
      AddName(tokens, names, m.name, Token(LabelOf(m.kind, mode), |tokens| + 1));
    } else {
      var i :| 0 <= i < |names| && names[i] == m.name;
      assert m.name in tokens;
    }
  }

  lemma AddName(tokens: map<string, string>, names: seq<string>, name: string, token: string)
    requires TokensOk(tokens, names) && name !in tokens && Numbered(token, |names| + 1)
    ensures TokensOk(tokens[name := token], names + [name])
  {
    assert tokens[name := token].Keys == tokens.Keys + {name};
    AddNumber(tokens, names, name, token);
    forall n | n in tokens[name := token] ensures n in names + [name] {
      if n != name { assert n in names; }
    }
  }

  lemma AddNumber(tokens: map<string, string>, names: seq<string>, name: string, token: string)
    requires NumbersOk(tokens, names) && name !in tokens && Numbered(token, |names| + 1)
    ensures NumbersOk(tokens[name := token], names + [name])
  {
    forall i | 0 <= i < |names + [name]| ensures (names + [name])[i] in tokens[name := token] && Numbered(tokens[name := token][(names + [name])[i]], i + 1) {
      KeepsNumber(tokens, names, name, token, i);
    }
  }

  lemma KeepsNumber(tokens: map<string, string>, names: seq<string>, name: string, token: string, i: int)
    requires 0 <= i < |names| ==> names[i] in tokens && Numbered(tokens[names[i]], i + 1)
    requires name !in tokens && Numbered(token, |names| + 1) && 0 <= i <= |names|
    ensures var (after, longer) := (tokens[name := token], names + [name]);
            longer[i] in after && Numbered(after[longer[i]], i + 1)
  {
    if i == |names| { assert (names + [name])[i] == name; } else { assert (names + [name])[i] == names[i]; }
  }

  lemma {:induction false} AssignAllOk(tokens: map<string, string>, names: seq<string>, ms: seq<Match>, mode: Mode)
    requires TokensOk(tokens, names)
    ensures TokensOk(AssignAll(tokens, ms, mode), NamesOf(names, ms))
    decreases |ms|
  {
    if ms != [] {
      AssignOk(tokens, names, ms[0], mode);
      AssignAllOk(Assign(tokens, ms[0], mode), NamesAfter(names, ms[0]), ms[1..], mode);
    }
  }

  lemma {:induction false} AssignAllGrows(tokens: map<string, string>, ms: seq<Match>, mode: Mode)
    ensures var after := AssignAll(tokens, ms, mode);
            && (forall name | name in tokens :: name in after && after[name] == tokens[name])
            && (forall m | m in ms :: m.name in after)
    decreases |ms|
  {
    if ms != [] {
      AssignAllGrows(Assign(tokens, ms[0], mode), ms[1..], mode);
    }
  }

  lemma {:induction false} NamesAreMatched(names: seq<string>, ms: seq<Match>, name: string)
    requires name in NamesOf(names, ms)
    ensures name in names || exists m :: m in ms && m.name == name
    decreases |ms|
  {
    if ms != [] {
      NamesAreMatched(NamesAfter(names, ms[0]), ms[1..], name);
      assert ms[0] in ms;
    }
  }

  lemma FourDigits(tokens: map<string, string>, names: seq<string>, name: string)
    requires TokensOk(tokens, names) && |names| < 10000 && name in tokens
    ensures IsToken(tokens[name])
  {
    var i :| 0 <= i < |names| && names[i] == name;
    var tag :| Label(tag) && tokens[name] == Token(tag, i + 1);
    TokensAreTokens(tag, i + 1);
  }

  lemma TokensDiffer(tokens: map<string, string>, names: seq<string>, a: string, b: string)
    requires TokensOk(tokens, names) && |names| < 10000 && a in tokens && b in tokens && tokens[a] == tokens[b]
    ensures a == b
  {
    var i :| 0 <= i < |names| && names[i] == a;
    var j :| 0 <= j < |names| && names[j] == b;
    NumberIsUnique(tokens[a], i + 1, j + 1);
  }
}
