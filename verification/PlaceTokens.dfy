/** Tokens that stand for place names: their form, finding them in a text, and replacing them.

Texts are sequences of characters in normal form. Replacing one token after another is proved equal to
replacing all of them at once, for texts in which tokens stand alone. */
module PlaceTokens {

  predicate Upper(c: char) { 'A' <= c <= 'Z' }
  predicate Digit(c: char) { '0' <= c <= '9' }
  predicate LabelChar(c: char) { Upper(c) || c == '_' }

  /** The characters tokens are made of. */
  predicate Word(c: char) { LabelChar(c) || Digit(c) }

  const TOKEN_PREFIX := "__MB_"

  predicate HasPrefix(v: string, t: string) { |t| <= |v| && v[..|t|] == t }

  predicate OccursAt(v: string, t: string, p: nat) { p <= |v| && HasPrefix(v[p..], t) }

  predicate Contains(v: string, t: string) { exists p: nat | p <= |v| :: OccursAt(v, t, p) }

  // ----- printing -----

  /** Label characters only, and no underscore at either end or next to another. */
  predicate Label(tag: string) {
    && |tag| > 0 && tag[0] != '_' && tag[|tag| - 1] != '_'
    && (forall i | 0 <= i < |tag| :: LabelChar(tag[i]))
    && (forall i | 0 <= i < |tag| - 1 :: !(tag[i] == '_' && tag[i + 1] == '_'))
  }

  function DigitChar(n: nat): (c: char)
    requires n < 10
    ensures Digit(c)
  {
    '0' + n as char
  }

  /** At least four digits. */
  function Padded(n: nat): (digits: string)
    ensures |digits| >= 4 && (|digits| == 4 <==> n < 10000)
    ensures forall i | 0 <= i < |digits| :: Digit(digits[i])
  {
    if n < 10000 then [DigitChar(n / 10 / 10 / 10), DigitChar(n / 10 / 10 % 10), DigitChar(n / 10 % 10), DigitChar(n % 10)]
    else Padded(n / 10) + [DigitChar(n % 10)]
  }

  function DigitValue(c: char): int { c as int - '0' as int }

  function Parsed(digits: string): int
    requires |digits| == 4
  {
    1000 * DigitValue(digits[0]) + 100 * DigitValue(digits[1]) + 10 * DigitValue(digits[2]) + DigitValue(digits[3])
  }

  lemma ParsePadded(n: nat)
    requires n < 10000
    ensures Parsed(Padded(n)) == n
  {
    DigitValueOf(n / 10 / 10 / 10);
    DigitValueOf(n / 10 / 10 % 10);
    DigitValueOf(n / 10 % 10);
    DigitValueOf(n % 10);
  }

  lemma DigitValueOf(n: nat)
    requires n < 10
    ensures DigitValue(DigitChar(n)) == n
  {
  }

  function Token(tag: string, n: nat): string { TOKEN_PREFIX + tag + "_" + Padded(n) + "__" }

  /** The form of a token with four digits: prefix, label, digits and end, and no two underscores in a row
  except at both ends. */
  predicate IsToken(t: string) {
    && |t| >= 13 && t[0] == '_' && t[1] == '_' && t[2] == 'M' && t[3] == 'B' && t[4] == '_'
    && (forall i | 5 <= i < |t| - 6 :: LabelChar(t[i])) && t[|t| - 7] == '_'
    && (forall i | |t| - 6 <= i < |t| - 2 :: Digit(t[i]))
    && t[|t| - 2] == '_' && t[|t| - 1] == '_'
    && (forall i | 0 < i < |t| - 2 :: !(t[i] == '_' && t[i + 1] == '_'))
  }

  lemma TokensAreTokens(tag: string, n: nat)
    requires Label(tag) && n < 10000
    ensures IsToken(Token(tag, n))
  {
    var t := Token(tag, n);
    assert forall i | 5 <= i < 5 + |tag| :: t[i] == tag[i - 5];
    assert forall i | |t| - 6 <= i < |t| - 2 :: t[i] == Padded(n)[i - (|t| - 6)];
  }

  lemma TokenShape(t: string)
    requires IsToken(t)
    ensures t[..5] == TOKEN_PREFIX && forall i | 0 <= i < |t| :: Word(t[i])
  {
  }

  lemma TokenNumber(tag: string, m: nat, other: string, n: nat)
    requires m < 10000 && n < 10000 && Token(tag, m) == Token(other, n)
    ensures m == n
  {
    var t, u := Token(tag, m), Token(other, n);
    assert t[|t| - 6..|t| - 2] == Padded(m);
    assert u[|u| - 6..|u| - 2] == Padded(n);
    ParsePadded(m);
    ParsePadded(n);
  }

  // ----- the pattern __MB_[A-Z_]+_[0-9]{4}__ -----

  /** Length of the longest prefix of label characters. */
  function LabelRun(v: string): (n: nat)
    ensures n <= |v| && (forall i | 0 <= i < n :: LabelChar(v[i])) && (n < |v| ==> !LabelChar(v[n]))
  {
    if v == "" || !LabelChar(v[0]) then 0 else 1 + LabelRun(v[1..])
  }

  lemma {:induction false} LabelRunIs(v: string, n: nat)
    requires n <= |v| && (forall i | 0 <= i < n :: LabelChar(v[i])) && (n < |v| ==> !LabelChar(v[n]))
    ensures LabelRun(v) == n
  {
    if n > 0 { LabelRunIs(v[1..], n - 1); }
  }

  /** Length of the match at the start of the text, 0 if there is none. No digit is a label character, so
  the match is unique: its label part ends where the run of label characters does. */
  function MatchLen(v: string): (n: nat)
    ensures n <= |v| && (n > 0 ==> n >= 12 && HasPrefix(v, TOKEN_PREFIX))
  {
    if !HasPrefix(v, TOKEN_PREFIX) then 0 else
      var digits := 5 + LabelRun(v[5..]);
      if digits >= 7 && v[digits - 1] == '_' && |v| >= digits + 6 && (forall i | digits <= i < digits + 4 :: Digit(v[i])) &&
         v[digits + 4] == '_' && v[digits + 5] == '_'
      then digits + 6 else 0
  }

  lemma TokenMatches(t: string, w: string)
    requires IsToken(t)
    ensures MatchLen(t + w) == |t|
  {
    TokenShape(t);
    var v, digits := t + w, |t| - 6;
    assert v[..5] == t[..5];
    assert forall i | 0 <= i < |t| :: v[i] == t[i];
    LabelRunIs(v[5..], digits - 5);
  }

  lemma OccurrenceMatches(v: string, t: string, p: nat)
    requires IsToken(t) && OccursAt(v, t, p)
    ensures MatchLen(v[p..]) == |t| && v[p..][..|t|] == t
  {
    assert v[p..] == t + v[p..][|t|..];
    TokenMatches(t, v[p..][|t|..]);
  }

  /** FindAllString: the matches from left to right, each after the end of the one before. */
  function FindAll(v: string): (found: seq<string>)
    decreases |v|
  {
    if v == "" then []
    else if MatchLen(v) > 0 then [v[..MatchLen(v)]] + FindAll(v[MatchLen(v)..])
    else FindAll(v[1..])
  }

  // ----- replacing -----

  /** Every occurrence of a token replaced, from left to right. */
  function ReplaceAll(v: string, t: string, o: string): string
    requires |t| > 0
    decreases |v|
  {
    if v == "" then ""
    else if HasPrefix(v, t) then o + ReplaceAll(v[|t|..], t, o)
    else [v[0]] + ReplaceAll(v[1..], t, o)
  }

  /** All tokens of a map at once. */
  function Substitute(v: string, m: map<string, string>): string
    decreases |v|
  {
    if v == "" then ""
    else
      var n := MatchLen(v);
      if n > 0 && v[..n] in m then m[v[..n]] + Substitute(v[n..], m) else [v[0]] + Substitute(v[1..], m)
  }

  /** Every occurrence of the token stands between characters that no token is made of. */
  predicate Isolated(v: string, t: string) {
    forall p: nat | p <= |v| && OccursAt(v, t, p) ::
      (p > 0 ==> !Word(v[p - 1])) && (p + |t| < |v| ==> !Word(v[p + |t|]))
  }

  predicate AllIsolated(v: string, ts: set<string>) { forall t | t in ts :: Isolated(v, t) }

  lemma OccursInSuffix(v: string, n: nat, t: string, p: nat)
    requires n <= |v| && OccursAt(v[n..], t, p)
    ensures OccursAt(v, t, n + p)
  {
    assert v[n..][p..] == v[n + p..];
  }

  lemma IsolatedSuffix(v: string, t: string, n: nat)
    requires n <= |v| && Isolated(v, t)
    ensures Isolated(v[n..], t)
  {
    forall p: nat | p <= |v[n..]| && OccursAt(v[n..], t, p)
      ensures (p > 0 ==> !Word(v[n..][p - 1])) && (p + |t| < |v[n..]| ==> !Word(v[n..][p + |t|]))
    {
      OccursInSuffix(v, n, t, p);
    }
  }

  /** The next thing to replace stands at the start of the text. */
  predicate Starts(v: string, m: map<string, string>) { MatchLen(v) > 0 && v[..MatchLen(v)] in m }

  lemma TokenAfterNoWord(v: string, m: map<string, string>, p: nat)
    requires AllIsolated(v, m.Keys) && 0 < p <= |v| && Starts(v[p..], m)
    ensures !Word(v[p - 1])
  {
    var t := v[p..][..MatchLen(v[p..])];
    assert OccursAt(v, t, p) && t in m.Keys;
  }

  /** Between word characters nothing to replace starts. */
  lemma StillNothing(v: string, m: map<string, string>, n: nat)
    requires n <= |v| && AllIsolated(v, m.Keys) && !Starts(v, m) && forall i | 0 <= i < n :: Word(v[i])
    ensures !Starts(v[n..], m)
  {
    if n == 0 { assert v[0..] == v; } else if Starts(v[n..], m) { TokenAfterNoWord(v, m, n); }
  }

  /** Word characters in front of a text cannot run into one of its tokens, so they are copied. */
  lemma {:induction false} WordsAreCopied(v: string, m: map<string, string>, n: nat)
    requires n <= |v| && AllIsolated(v, m.Keys)
    requires forall i | 0 <= i < n :: Word(v[i])
    requires n > 0 ==> !Starts(v, m)
    ensures Substitute(v, m) == v[..n] + Substitute(v[n..], m)
    decreases n
  {
    if n > 0 {
      WordsAreCopied(v, m, n - 1);
      StillNothing(v, m, n - 1);
      OneMoreCopied(v, m, n - 1);
    } else {
      assert v[0..] == v;
    }
  }

  lemma OneMoreCopied(v: string, m: map<string, string>, n: nat)
    requires n < |v| && !Starts(v[n..], m)
    ensures v[..n] + Substitute(v[n..], m) == v[..n + 1] + Substitute(v[n + 1..], m)
  {
    CopiesAt(v, m, n);
    assert v[..n] + [v[n]] == v[..n + 1];
  }

  lemma CopiesAt(v: string, m: map<string, string>, p: nat)
    requires p < |v| && !Starts(v[p..], m)
    ensures Substitute(v[p..], m) == [v[p]] + Substitute(v[p + 1..], m)
  {
    CopiesOne(v[p..], m);
    assert v[p..][1..] == v[p + 1..];
  }

  lemma CopiesOne(v: string, m: map<string, string>)
    requires v != "" && !Starts(v, m)
    ensures Substitute(v, m) == [v[0]] + Substitute(v[1..], m)
  {
  }

  lemma OccurrenceAcross(s: string, w: string, t: string)
    requires |t| > 0 && (forall i | 0 <= i < |t| :: Word(t[i]))
    requires HasPrefix(s + w, t)
    ensures Contains(s, t) || (w != "" && Word(w[0]))
  {
    if |t| <= |s| {
      assert s[0..] == s && s[..|t|] == t;
      assert OccursAt(s, t, 0);
    } else {
      assert t[|s|] == (s + w)[|s|];
    }
  }

  /** A text before a character that is no word character is passed over if the token is not in it. */
  lemma {:induction false} ReplacePasses(s: string, w: string, t: string, o: string)
    requires |t| > 0 && (forall i | 0 <= i < |t| :: Word(t[i])) && !Contains(s, t)
    requires w == "" || !Word(w[0])
    ensures ReplaceAll(s + w, t, o) == s + ReplaceAll(w, t, o)
    decreases |s|
  {
    if s == "" {
      assert s + w == w;
    } else {
      if HasPrefix(s + w, t) { OccurrenceAcross(s, w, t); }
      forall p: nat | p <= |s[1..]| && OccursAt(s[1..], t, p) ensures false { OccursInSuffix(s, 1, t, p); }
      assert (s + w)[1..] == s[1..] + w;
      ReplacePasses(s[1..], w, t, o);
    }
  }

  /** A prefix made of word characters shows through the substitution unchanged. */
  lemma {:induction false} ShowsThrough(v: string, m: map<string, string>, t: string, n: nat)
    requires n <= |t| && AllIsolated(v, m.Keys) && !Starts(v, m) && forall i | 0 <= i < |t| :: Word(t[i])
    requires HasPrefix(Substitute(v, m), t)
    ensures n <= |v| && v[..n] == t[..n]
    decreases n
  {
    if n > 0 {
      ShowsThrough(v, m, t, n - 1);
      forall i | 0 <= i < n - 1 ensures Word(v[i]) { assert v[i] == v[..n - 1][i] == t[..n - 1][i] == t[i]; }
      WordsAreCopied(v, m, n - 1);
      ShowsOneMore(v, m, t, n - 1);
    }
  }

  lemma ShowsOneMore(v: string, m: map<string, string>, t: string, n: nat)
    requires n < |t| && n <= |v| && v[..n] == t[..n] && !Starts(v, m) && AllIsolated(v, m.Keys)
    requires forall i | 0 <= i < n :: Word(v[i])
    requires HasPrefix(v[..n] + Substitute(v[n..], m), t)
    ensures n < |v| && v[..n + 1] == t[..n + 1]
  {
    var rest := v[n..];
    assert t[n] == (v[..n] + Substitute(rest, m))[n];
    if rest != "" {
      StillNothing(v, m, n);
      CopiesOne(rest, m);
      assert v[..n + 1] == v[..n] + [v[n]] && t[..n + 1] == t[..n] + [t[n]];
    }
  }

  /** One more token: replacing it after the others is the same as replacing it with them. */
  lemma {:induction false} ReplaceOneMore(v: string, m: map<string, string>, t: string, o: string)
    requires IsToken(t) && t !in m && (forall k | k in m :: IsToken(k) && !Contains(m[k], t))
    requires AllIsolated(v, m.Keys) && Isolated(v, t)
    ensures ReplaceAll(Substitute(v, m), t, o) == Substitute(v, m[t := o])
    decreases |v|
  {
    if v != "" {
      TokenShape(t);
      var n := MatchLen(v);
      if Starts(v, m) {
        ReplaceAfterName(v, m, t, o);
      } else if HasPrefix(v, t) {
        ReplaceAtToken(v, m, t, o);
      } else {
        SuffixReplaced(v, m, t, o, 1);
        if HasPrefix(Substitute(v, m), t) { ShowsThrough(v, m, t, |t|); }
        assert n > 0 && v[..n] == t ==> HasPrefix(v, t);
        assert Substitute(v, m)[1..] == Substitute(v[1..], m);
      }
    }
  }

  lemma {:induction false} SuffixReplaced(v: string, m: map<string, string>, t: string, o: string, n: nat)
    requires 0 < n <= |v| && IsToken(t) && t !in m && (forall k | k in m :: IsToken(k) && !Contains(m[k], t))
    requires AllIsolated(v, m.Keys) && Isolated(v, t)
    ensures ReplaceAll(Substitute(v[n..], m), t, o) == Substitute(v[n..], m[t := o])
    decreases |v|, 0
  {
    forall k | k in m ensures Isolated(v[n..], k) { IsolatedSuffix(v, k, n); }
    IsolatedSuffix(v, t, n);
    ReplaceOneMore(v[n..], m, t, o);
  }

  lemma {:induction false} ReplaceAfterName(v: string, m: map<string, string>, t: string, o: string)
    requires IsToken(t) && t !in m && (forall k | k in m :: IsToken(k) && !Contains(m[k], t))
    requires AllIsolated(v, m.Keys) && Isolated(v, t) && Starts(v, m)
    ensures ReplaceAll(Substitute(v, m), t, o) == Substitute(v, m[t := o])
    decreases |v|, 1
  {
    TokenShape(t);
    var n := MatchLen(v);
    var k, w := v[..n], v[n..];
    SuffixReplaced(v, m, t, o, n);
    assert OccursAt(v, k, 0);
    assert Isolated(v, k);
    if w != "" {
      assert !Word(w[0]) && MatchLen(w) == 0;
      assert Substitute(w, m)[0] == w[0];
    }
    ReplacePasses(m[k], Substitute(w, m), t, o);
  }

  lemma {:induction false} ReplaceAtToken(v: string, m: map<string, string>, t: string, o: string)
    requires IsToken(t) && t !in m && (forall k | k in m :: IsToken(k) && !Contains(m[k], t))
    requires AllIsolated(v, m.Keys) && Isolated(v, t) && HasPrefix(v, t)
    ensures ReplaceAll(Substitute(v, m), t, o) == Substitute(v, m[t := o])
    decreases |v|, 1
  {
    TokenShape(t);
    var w := v[|t|..];
    SuffixReplaced(v, m, t, o, |t|);
    assert v == t + w;
    TokenMatches(t, w);
    assert v[..|t|] == t;
    forall i | 0 <= i < |t| ensures Word(v[i]) { assert v[i] == t[i]; }
    WordsAreCopied(v, m, |t|);
    assert Substitute(v, m) == t + Substitute(w, m);
    assert HasPrefix(t + Substitute(w, m), t);
    assert (t + Substitute(w, m))[|t|..] == Substitute(w, m);
  }
}
