/** Comparing the clocks of a text and of its translation: each clock of the source has to reappear, and
every clock that certainly is one in the translation has to come from the source. */
module ClockMatching {
  /** A span of the text that reads as a clock, in minutes after midnight. */
  datatype Clock = Clock(start: nat, end: nat, minutes: int)

  predicate Overlaps(clocks: seq<Clock>, start: nat, end: nat) {
    exists c | c in clocks :: start < c.end && end > c.start
  }

  /** Spans with a clock that lie outside all clocks found before. */
  function WithFree(clocks: seq<Clock>, more: seq<Clock>): seq<Clock>
    decreases |more|
  {
    if more == [] then clocks
    else WithFree(if Overlaps(clocks, more[0].start, more[0].end) then clocks else clocks + [more[0]], more[1..])
  }

  lemma {:induction false} WithFreeExtends(clocks: seq<Clock>, more: seq<Clock>)
    ensures |WithFree(clocks, more)| >= |clocks| && WithFree(clocks, more)[..|clocks|] == clocks
    ensures forall c | c in WithFree(clocks, more) :: c in clocks || c in more
    decreases |more|
  {
    if more != [] {
      WithFreeExtends(if Overlaps(clocks, more[0].start, more[0].end) then clocks else clocks + [more[0]], more[1..]);
    }
  }

  method AddFree(clocks: seq<Clock>, more: seq<Clock>) returns (all: seq<Clock>)
    ensures all == WithFree(clocks, more)
  {
    all := clocks;
    assert more[0..] == more;
    for i := 0 to |more|
      invariant WithFree(all, more[i..]) == WithFree(clocks, more)
    {
      assert more[i..][0] == more[i] && more[i..][1..] == more[i + 1..];
      if !Overlaps(all, more[i].start, more[i].end) {
        all := all + [more[i]];
      }
    }
  }

  /** How many clocks show this time. */
  function Count(clocks: seq<Clock>, m: int): nat {
    if clocks == [] then 0
    else Count(clocks[..|clocks| - 1], m) + if clocks[|clocks| - 1].minutes == m then 1 else 0
  }

  // ----- the greedy assignment -----

  /** How many of the first `n` clocks with this time are used. */
  function Used(clocks: seq<Clock>, used: seq<bool>, m: int, n: nat): nat
    requires n <= |clocks| == |used|
  {
    if n == 0 then 0 else Used(clocks, used, m, n - 1) + if used[n - 1] && clocks[n - 1].minutes == m then 1 else 0
  }

  lemma {:induction false} UsedAtMost(clocks: seq<Clock>, used: seq<bool>, m: int, n: nat)
    requires n <= |clocks| == |used|
    ensures Used(clocks, used, m, n) <= Count(clocks[..n], m)
    ensures Used(clocks, used, m, n) == Count(clocks[..n], m) <==> forall i | 0 <= i < n && clocks[i].minutes == m :: used[i]
    decreases n
  {
    if n > 0 {
      assert clocks[..n][..n - 1] == clocks[..n - 1];
      UsedAtMost(clocks, used, m, n - 1);
    }
  }

  lemma {:induction false} UseOne(clocks: seq<Clock>, used: seq<bool>, i: nat, m: int, n: nat)
    requires i < |clocks| == |used| && n <= |clocks| && !used[i]
    ensures Used(clocks, used[i := true], m, n) == Used(clocks, used, m, n) + if i < n && clocks[i].minutes == m then 1 else 0
    decreases n
  {
    if n > 0 { UseOne(clocks, used, i, m, n - 1); }
  }

  /** Of clocks with the same time the earlier ones are used first. */
  ghost predicate InOrder(clocks: seq<Clock>, used: seq<bool>)
    requires |clocks| == |used|
  {
    forall i, j | 0 <= i < j < |clocks| && clocks[i].minutes == clocks[j].minutes && used[j] :: used[i]
  }

  lemma {:induction false} NoneUsedAfter(clocks: seq<Clock>, used: seq<bool>, m: int, i: nat, n: nat)
    requires i <= n <= |clocks| == |used| && forall j | i <= j < n && clocks[j].minutes == m :: !used[j]
    ensures Used(clocks, used, m, n) == Used(clocks, used, m, i)
    decreases n
  {
    if i < n { NoneUsedAfter(clocks, used, m, i, n - 1); }
  }

  lemma {:induction false} CountPrefix(clocks: seq<Clock>, m: int, i: nat, n: nat)
    requires i <= n <= |clocks|
    ensures Count(clocks[..i], m) <= Count(clocks[..n], m)
    ensures i < n && clocks[i].minutes == m ==> Count(clocks[..i], m) < Count(clocks[..n], m)
    decreases n
  {
    if i < n {
      assert clocks[..n][..n - 1] == clocks[..n - 1];
      CountPrefix(clocks, m, i, n - 1);
    }
  }

  /** Enough uses of a time reach all of its clocks among the first `required`. */
  lemma RequiredAreUsed(clocks: seq<Clock>, used: seq<bool>, m: int, required: nat)
    requires required <= |clocks| == |used| && InOrder(clocks, used)
    ensures Count(clocks[..required], m) <= Used(clocks, used, m, |clocks|) <==>
            forall i | 0 <= i < required && clocks[i].minutes == m :: used[i]
  {
    UsedAtMost(clocks, used, m, required);
    UsedGrows(clocks, used, m, required);
    if i :| 0 <= i < required && clocks[i].minutes == m && !used[i] {
      NoneUsedAfter(clocks, used, m, i, |clocks|);
      UsedAtMost(clocks, used, m, i);
      CountPrefix(clocks, m, i, required);
    }
  }

  lemma {:induction false} UsedGrows(clocks: seq<Clock>, used: seq<bool>, m: int, n: nat)
    requires n <= |clocks| == |used|
    ensures Used(clocks, used, m, n) <= Used(clocks, used, m, |clocks|)
    decreases |clocks| - n
  {
    if n < |clocks| { UsedGrows(clocks, used, m, n + 1); }
  }

  function Min(a: nat, b: nat): nat { if a < b then a else b }

  /** After some clocks of the source: of every time as many are used as could be. */
  ghost predicate Assigned(source: seq<Clock>, clocks: seq<Clock>, used: seq<bool>)
    requires |clocks| == |used|
  {
    InOrder(clocks, used) && forall m :: Used(clocks, used, m, |clocks|) == Min(Count(source, m), Count(clocks, m))
  }

  ghost predicate Fits(source: seq<Clock>, clocks: seq<Clock>, m: int) { Count(source, m) <= Count(clocks, m) }

  /** A time occurs in the source at least as often as required and at most as often as possible. */
  ghost predicate Balanced(source: seq<Clock>, required: seq<Clock>, all: seq<Clock>, m: int) {
    Count(required, m) <= Count(source, m) <= Count(all, m)
  }

  ghost predicate AllFit(source: seq<Clock>, clocks: seq<Clock>) { forall m :: Fits(source, clocks, m) }

  /** The first unused clock of the translation that shows the same time. */
  method FindUnused(clocks: seq<Clock>, used: array<bool>, m: int) returns (found: bool, index: nat)
    requires used.Length == |clocks|
    ensures found ==> index < |clocks| && !used[index] && clocks[index].minutes == m && forall i | 0 <= i < index && clocks[i].minutes == m :: used[i]
    ensures !found ==> forall i | 0 <= i < |clocks| && clocks[i].minutes == m :: used[i]
  {
    index := 0;
    while index < |clocks|
      invariant index <= |clocks| && forall i | 0 <= i < index && clocks[i].minutes == m :: used[i]
    {
      if !used[index] && clocks[index].minutes == m {
        return true, index;
      }
      index := index + 1;
    }
    found := false;
  }

  lemma AssignOne(source: seq<Clock>, c: Clock, clocks: seq<Clock>, used: seq<bool>, index: nat)
    requires |clocks| == |used| && Assigned(source, clocks, used) && index < |clocks| && !used[index] && clocks[index].minutes == c.minutes
    requires forall i | 0 <= i < index && clocks[i].minutes == c.minutes :: used[i]
    ensures Assigned(source + [c], clocks, used[index := true]) && (AllFit(source + [c], clocks) <==> AllFit(source, clocks))
  {
    assert Count(source, c.minutes) < Count(clocks, c.minutes) by {
      assert clocks[..|clocks|] == clocks;
      UsedAtMost(clocks, used, c.minutes, |clocks|);
    }
    forall m ensures Fits(source + [c], clocks, m) <==> Fits(source, clocks, m) { CountAppends(source, c, m); }
    assert clocks[..|clocks|] == clocks;
    UsedAtMost(clocks, used, c.minutes, |clocks|);
    forall m ensures Used(clocks, used[index := true], m, |clocks|) == Min(Count(source + [c], m), Count(clocks, m)) {
      UseOne(clocks, used, index, m, |clocks|);
      CountAppends(source, c, m);
    }
  }

  lemma AssignNone(source: seq<Clock>, c: Clock, clocks: seq<Clock>, used: seq<bool>)
    requires |clocks| == |used| && Assigned(source, clocks, used) && forall i | 0 <= i < |clocks| && clocks[i].minutes == c.minutes :: used[i]
    ensures Assigned(source + [c], clocks, used) && !AllFit(source + [c], clocks)
  {
    assert clocks[..|clocks|] == clocks;
    UsedAtMost(clocks, used, c.minutes, |clocks|);
    forall m ensures Used(clocks, used, m, |clocks|) == Min(Count(source + [c], m), Count(clocks, m)) { CountAppends(source, c, m); }
    CountAppends(source, c, c.minutes);
    assert !Fits(source + [c], clocks, c.minutes);
  }

  lemma CountAppends(source: seq<Clock>, c: Clock, m: int)
    ensures Count(source + [c], m) == Count(source, m) + if c.minutes == m then 1 else 0
  {
    assert (source + [c])[..|source|] == source;
  }

  lemma {:induction false} NothingUsed(clocks: seq<Clock>, used: seq<bool>, n: nat, m: int)
    requires n <= |clocks| == |used| && forall i | 0 <= i < |used| :: !used[i]
    ensures Used(clocks, used, m, n) == 0
    decreases n
  {
    if n > 0 { NothingUsed(clocks, used, n - 1, m); }
  }

  /** Clocks at different places of the list. */
  ghost predicate IsSelection(clocks: seq<Clock>, places: seq<nat>, b: seq<Clock>) {
    && |places| == |b| && (forall i | 0 <= i < |b| :: places[i] < |clocks| && b[i] == clocks[places[i]])
    && (forall i, j | 0 <= i < j < |places| :: places[i] != places[j])
  }

  /** The spans to blank come in pairs of the same time, and no clock of the translation is in two pairs. */
  ghost predicate Paired(source: seq<Clock>, clocks: seq<Clock>, a: seq<Clock>, b: seq<Clock>) {
    && |a| == |b| && (forall i | 0 <= i < |a| :: a[i] in source && a[i].minutes == b[i].minutes)
    && exists places :: IsSelection(clocks, places, b)
  }

  method Match(source: seq<Clock>, clocks: seq<Clock>, required: nat) returns (ok: bool, a: seq<Clock>, b: seq<Clock>)
    requires required <= |clocks|
    ensures ok <==> forall m :: Balanced(source, clocks[..required], clocks, m)
    ensures Paired(source, clocks, a, b) && (ok ==> a == source)
  {
    var used := new bool[|clocks|];
    for i := 0 to |clocks|
      invariant forall k | 0 <= k < i :: !used[k]
    {
      used[i] := false;
    }
    a, b := [], [];
    ghost var places: seq<nat> := [];
    forall m ensures Used(clocks, used[..], m, |clocks|) == 0 { NothingUsed(clocks, used[..], |clocks|, m); }
    for k := 0 to |source|
      modifies used
      invariant Assigned(source[..k], clocks, used[..]) && |a| == |b| <= k
      invariant forall i | 0 <= i < |a| :: a[i] in source && a[i].minutes == b[i].minutes
      invariant IsSelection(clocks, places, b) && forall i | 0 <= i < |places| :: used[places[i]]
      invariant (|a| == k <==> AllFit(source[..k], clocks)) && (|a| == k ==> a == source[..k])
    {
      var c := source[k];
      assert source[..k + 1] == source[..k] + [c];
      var found, index := FindUnused(clocks, used, c.minutes);
      if found {
        AssignOne(source[..k], c, clocks, used[..], index);
        ghost var before := used[..];
        used[index] := true;
        assert used[..] == before[index := true];
        a, b, places := a + [c], b + [clocks[index]], places + [index];
      } else {
        AssignNone(source[..k], c, clocks, used[..]);
      }
    }
    assert source[..|source|] == source;
    if |a| != |source| {
      ghost var m :| !Fits(source, clocks, m);
      assert !Balanced(source, clocks[..required], clocks, m);
      return false, a, b;
    }
    ok := AllRequiredUsed(source, clocks, required, used);
  }

  /** Every clock that certainly is one has been used. */
  method AllRequiredUsed(source: seq<Clock>, clocks: seq<Clock>, required: nat, used: array<bool>) returns (ok: bool)
    requires required <= |clocks| == used.Length && Assigned(source, clocks, used[..]) && AllFit(source, clocks)
    ensures ok <==> forall m :: Balanced(source, clocks[..required], clocks, m)
  {
    forall m ensures Balanced(source, clocks[..required], clocks, m) <==> Count(clocks[..required], m) <= Count(source, m) { assert Fits(source, clocks, m); }
    forall m ensures Count(clocks[..required], m) <= Count(source, m) <==> forall i | 0 <= i < required && clocks[i].minutes == m :: used[i] {
      RequiredAreUsed(clocks, used[..], m, required);
      assert Fits(source, clocks, m);
    }
    for i := 0 to required
      invariant forall k | 0 <= k < i :: used[k]
    {
      if !used[i] {
        assert !Balanced(source, clocks[..required], clocks, clocks[i].minutes);
        return false;
      }
    }
    ok := true;
  }

  // ----- blanking -----

  ghost predicate Within(clocks: seq<Clock>, text: string) { forall c | c in clocks :: c.start <= c.end <= |text| }

  ghost predicate Covered(clocks: seq<Clock>, i: int) { exists c | c in clocks :: c.start <= i < c.end }

  /** The spans become blanks and nothing else changes. */
  ghost predicate IsBlanked(text: string, clocks: seq<Clock>, blanked: string) {
    |blanked| == |text| && forall i | 0 <= i < |text| :: blanked[i] == if Covered(clocks, i) then ' ' else text[i]
  }

  method Blank(text: string, clocks: seq<Clock>) returns (blanked: string)
    requires Within(clocks, text)
    ensures IsBlanked(text, clocks, blanked)
  {
    var result := new char[|text|];
    for i := 0 to |text|
      invariant forall k | 0 <= k < i :: result[k] == text[k]
    {
      result[i] := text[i];
    }
    for k := 0 to |clocks|
      invariant forall i | 0 <= i < |text| :: result[i] == if Covered(clocks[..k], i) then ' ' else text[i]
    {
      assert clocks[..k + 1] == clocks[..k] + [clocks[k]];
      assert clocks[k] in clocks;
      for index := clocks[k].start to clocks[k].end
        invariant forall i | 0 <= i < |text| :: result[i] == if Covered(clocks[..k], i) || clocks[k].start <= i < index then ' ' else text[i]
      {
        result[index] := ' ';
      }
      forall i | 0 <= i < |text| ensures Covered(clocks[..k + 1], i) <==> Covered(clocks[..k], i) || clocks[k].start <= i < clocks[k].end {}
    }
    assert clocks[..|clocks|] == clocks;
    blanked := result[..];
  }

  // ----- removeEquivalentLocalizedTimes -----

  /** The clocks that may but need not come from the source: those outside all others. */
  ghost function AllClocks(required: seq<Clock>, markers: seq<Clock>, chinese: seq<Clock>): seq<Clock> {
    WithFree(WithFree(required, markers), chinese)
  }

  /** Some side has no clocks at all. */
  ghost predicate NothingToCompare(source: seq<Clock>, required: seq<Clock>, markers: seq<Clock>, chinese: seq<Clock>) {
    source == [] || (required == [] && markers == [] && chinese == [])
  }

  /** Every time occurs in the source at least as often as it certainly does in the translation, and at most
  as often as it possibly does. */
  ghost predicate Equivalent(source: seq<Clock>, required: seq<Clock>, markers: seq<Clock>, chinese: seq<Clock>) {
    forall m :: Balanced(source, required, AllClocks(required, markers, chinese), m)
  }

  method RemoveEquivalentTimes(source: string, translated: string, sourceClocks: seq<Clock>, required: seq<Clock>, markers: seq<Clock>, chinese: seq<Clock>)
    returns (cleanSource: string, cleanTranslated: string, ok: bool)
    requires Within(sourceClocks, source) && Within(required, translated) && Within(markers, translated) && Within(chinese, translated)
    ensures ok <==> NothingToCompare(sourceClocks, required, markers, chinese) || Equivalent(sourceClocks, required, markers, chinese)
    ensures |cleanSource| == |source| && |cleanTranslated| == |translated|
    ensures !ok || NothingToCompare(sourceClocks, required, markers, chinese) ==> cleanSource == source && cleanTranslated == translated
    ensures ok && !NothingToCompare(sourceClocks, required, markers, chinese) ==>
              exists b :: Paired(sourceClocks, AllClocks(required, markers, chinese), sourceClocks, b) &&
                IsBlanked(source, sourceClocks, cleanSource) && IsBlanked(translated, b, cleanTranslated)
  {
    if sourceClocks == [] || (required == [] && markers == [] && chinese == []) {
      return source, translated, true;
    }
    var clocks := AddFree(required, markers);
    WithFreeExtends(required, markers);
    WithFreeExtends(clocks, chinese);
    clocks := AddFree(clocks, chinese);
    assert clocks[..|required|] == required && clocks == AllClocks(required, markers, chinese);
    var matched, a, b := Match(sourceClocks, clocks, |required|);
    if !matched {
      ghost var m :| !Balanced(sourceClocks, clocks[..|required|], clocks, m);
      assert !Balanced(sourceClocks, required, AllClocks(required, markers, chinese), m);
      return source, translated, false;
    }
    assert Within(b, translated);
    cleanSource := Blank(source, a);
    cleanTranslated := Blank(translated, b);
    assert Paired(sourceClocks, AllClocks(required, markers, chinese), sourceClocks, b);
    ok := true;
  }

  // ----- what counting and adding mean -----

  ghost function PlacesOf(clocks: seq<Clock>, m: int): set<int> { set i | 0 <= i < |clocks| && clocks[i].minutes == m }

  lemma {:induction false} CountIsExact(clocks: seq<Clock>, m: int)
    ensures Count(clocks, m) == |PlacesOf(clocks, m)|
    decreases |clocks|
  {
    if clocks != [] {
      var n := |clocks| - 1;
      CountIsExact(clocks[..n], m);
      assert PlacesOf(clocks, m) == PlacesOf(clocks[..n], m) + if clocks[n].minutes == m then {n} else {};
    }
  }

  ghost predicate Has(c: Clock, p: int) { c.start <= p < c.end }

  /** Two spans have a character in common. */
  ghost predicate Share(a: Clock, b: Clock) { exists p :: Has(a, p) && Has(b, p) }

  ghost predicate SharesOneOf(clocks: seq<Clock>, m: Clock) { exists c :: c in clocks && Share(c, m) }

  ghost predicate SharesTaken(more: seq<Clock>, taken: seq<bool>, i: nat)
    requires i < |more| == |taken|
  {
    exists j :: 0 <= j < i && taken[j] && Share(more[j], more[i])
  }

  ghost predicate IsSpan(c: Clock) { c.start < c.end }

  ghost predicate AreSpans(clocks: seq<Clock>) { forall c | c in clocks :: IsSpan(c) }

  /** Of the further spans, in their order, those are taken that share no character with a clock taken before. */
  ghost predicate IsExtended(clocks: seq<Clock>, more: seq<Clock>, taken: seq<bool>, all: seq<Clock>) {
    && |taken| == |more|
    && (forall i | 0 <= i < |more| :: taken[i] <==> !SharesOneOf(clocks, more[i]) && !SharesTaken(more, taken, i))
    && all == clocks + TakenOnly(more, taken)
  }

  ghost function TakenOnly(more: seq<Clock>, taken: seq<bool>): seq<Clock>
    requires |taken| == |more|
  {
    if more == [] then [] else (if taken[0] then [more[0]] else []) + TakenOnly(more[1..], taken[1..])
  }

  lemma SharedIs(clocks: seq<Clock>, m: Clock)
    requires IsSpan(m) && AreSpans(clocks)
    ensures Overlaps(clocks, m.start, m.end) <==> SharesOneOf(clocks, m)
  {
    if c :| c in clocks && m.start < c.end && m.end > c.start {
      var p := if c.start <= m.start then m.start else c.start;
      assert Has(c, p) && Has(m, p);
      assert Share(c, m);
    }
  }

  lemma {:induction false} ExtensionIsExact(clocks: seq<Clock>, more: seq<Clock>) returns (taken: seq<bool>)
    requires AreSpans(clocks) && AreSpans(more)
    ensures IsExtended(clocks, more, taken, WithFree(clocks, more))
    decreases |more|
  {
    if more == [] {
      taken := [];
    } else {
      var free := !Overlaps(clocks, more[0].start, more[0].end);
      SharedIs(clocks, more[0]);
      var longer := if free then clocks + [more[0]] else clocks;
      var rest := ExtensionIsExact(longer, more[1..]);
      taken := [free] + rest;
      assert taken[1..] == rest;
      forall i | 0 <= i < |more|
        ensures taken[i] <==> !SharesOneOf(clocks, more[i]) && !SharesTaken(more, taken, i)
      {
        if i > 0 { LaterTaken(clocks, more, taken, longer, i, more[1..], rest); }
      }
      assert clocks + TakenOnly(more, taken) == longer + TakenOnly(more[1..], rest);
    }
  }

  lemma LaterTaken(clocks: seq<Clock>, more: seq<Clock>, taken: seq<bool>, longer: seq<Clock>, i: nat, others: seq<Clock>, rest: seq<bool>)
    requires 0 < i < |more| == |taken| && longer == if taken[0] then clocks + [more[0]] else clocks
    requires others == more[1..] && rest == taken[1..]
    ensures SharesOneOf(longer, others[i - 1]) || SharesTaken(others, rest, i - 1) <==> SharesOneOf(clocks, more[i]) || SharesTaken(more, taken, i)
  {
    if SharesOneOf(longer, others[i - 1]) {
      var c :| c in longer && Share(c, more[i]);
      assert c in clocks || (taken[0] && c == more[0]);
    }
    if SharesTaken(others, rest, i - 1) {
      var j :| 0 <= j < i - 1 && rest[j] && Share(others[j], others[i - 1]);
      assert taken[j + 1] && Share(more[j + 1], more[i]);
    }
    if SharesOneOf(clocks, more[i]) {
      var c :| c in clocks && Share(c, more[i]);
      assert c in longer;
    }
    if SharesTaken(more, taken, i) {
      var j :| 0 <= j < i && taken[j] && Share(more[j], more[i]);
      if j == 0 { assert more[0] in longer; } else { assert rest[j - 1] && Share(others[j - 1], others[i - 1]); }
    }
  }
}
