/**
 The older, anchor-based choice of an annual fact (fiscal_anchor_for, _days_from_anchor,
 _supersede_restated and the annual branch of _choose_fact_for_period in src/finvet/mcp/sec_edgar.py).
 */
module SecEdgar {
  import opened Wrappers
  import opened Dates
  import opened Sequences
  import opened FactSelection

  const FISCAL_ANCHOR_TOLERANCE_DAYS := 45

  // ----- the anchor -----

  function ClampedDay(year: int, month: int, day: int): int {
    if day <= DaysInMonth(year, month) then day else DaysInMonth(year, month)
  }

  /** What str.isspace holds of one character. */
  predicate IsSpace(c: char) {
    var n := c as int;
    || 0x09 <= n <= 0x0d || 0x1c <= n <= 0x20 || n == 0x85 || n == 0xa0 || n == 0x1680 || 0x2000 <= n <= 0x200a
    || n == 0x2028 || n == 0x2029 || n == 0x202f || n == 0x205f || n == 0x3000
  }

  /** The blank characters of Unicode, one by one. */
  const BLANKS: set<int> := {
    9, 10, 11, 12, 13, 28, 29, 30, 31, 32, 133, 160, 5760, 8192, 8193, 8194, 8195, 8196, 8197, 8198, 8199, 8200, 8201, 8202,
    8232, 8233, 8239, 8287, 12288}

  lemma BlanksAreBlank(c: char)
    ensures IsSpace(c) <==> c as int in BLANKS
  {
  }

  /** str.strip. */
  function Strip(s: string): string {
    if s == "" then s
    else if IsSpace(s[0]) then Strip(s[1..])
    else if IsSpace(s[|s| - 1]) then Strip(s[..|s| - 1])
    else s
  }

  /** s without blanks at either end is s[i..j]. */
  ghost predicate Trims(s: string, i: nat, j: nat) {
    && i <= j <= |s|
    && (forall k :: 0 <= k < i || j <= k < |s| ==> IsSpace(s[k]))
    && (i < j ==> !IsSpace(s[i]) && !IsSpace(s[j - 1]))
  }

  lemma TrimsAfterFirst(s: string, i: nat, j: nat)
    requires s != "" && IsSpace(s[0]) && Trims(s[1..], i, j)
    ensures Trims(s, i + 1, j + 1) && s[1..][i..j] == s[i + 1..j + 1]
  {
    forall k | 0 <= k < i + 1 || j + 1 <= k < |s| ensures IsSpace(s[k]) {
      if k > 0 {
        assert s[k] == s[1..][k - 1];
      }
    }
  }

  lemma TrimsBeforeLast(s: string, i: nat, j: nat)
    requires s != "" && IsSpace(s[|s| - 1]) && Trims(s[..|s| - 1], i, j)
    ensures Trims(s, i, j) && s[..|s| - 1][i..j] == s[i..j]
  {
    forall k | 0 <= k < i || j <= k < |s| ensures IsSpace(s[k]) {
      if k < |s| - 1 {
        assert s[k] == s[..|s| - 1][k];
      }
    }
  }

  /** Stripping removes blanks from both ends and no more. */
  lemma {:induction false} StripTrims(s: string) returns (i: nat, j: nat)
    ensures Trims(s, i, j) && Strip(s) == s[i..j]
    decreases |s|
  {
    i, j := 0, |s|;
    if s != "" && IsSpace(s[0]) {
      i, j := StripTrims(s[1..]);
      TrimsAfterFirst(s, i, j);
      i, j := i + 1, j + 1;
    } else if s != "" && IsSpace(s[|s| - 1]) {
      i, j := StripTrims(s[..|s| - 1]);
      TrimsBeforeLast(s, i, j);
    } else {
      assert s[0..|s|] == s;
    }
  }

  /** MMDD as numbers, None unless it is, blanks aside, four digits naming a month and a day up to 31. */
  function MonthDay(text: string): Option<(int, int)> {
    FourDigits(Strip(text))
  }

  function FourDigits(mmdd: string): Option<(int, int)> {
    if |mmdd| == 4 && IsDigit(mmdd[0]) && IsDigit(mmdd[1]) && IsDigit(mmdd[2]) && IsDigit(mmdd[3]) then
      var month := 10 * DigitValue(mmdd[0]) + DigitValue(mmdd[1]);
      var day := 10 * DigitValue(mmdd[2]) + DigitValue(mmdd[3]);
      if 1 <= month <= 12 && 1 <= day <= 31 then Some((month, day)) else None
    else None
  }

  /**
   The last existing day not after MMDD of that year. A fiscal year end on the first of a month has
   no anchor: the loop stops at day 1 without trying it.
   */
  function AnchorFor(mmdd: string, year: Option<int>): Option<FullDate> {
    var md := MonthDay(mmdd);
    if year == None || md == None || md.value.1 == 1 || !(1 <= year.value <= 9999) then None
    else Some(FullDate(year.value, md.value.0, ClampedDay(year.value, md.value.0, md.value.1)))
  }

  method FiscalAnchorFor(mmdd: string, year: Option<int>) returns (r: Option<FullDate>)
    ensures r == AnchorFor(mmdd, year)
    ensures r.Some? ==> r.value.Valid()
  {
    var md := MonthDay(mmdd);
    if year == None || md == None {
      return None;
    }
    var (month, day) := md.value;
    while day > 1
      invariant 1 <= day <= md.value.1
      invariant 1 <= year.value <= 9999 && md.value.1 > 1 ==> day >= ClampedDay(year.value, month, md.value.1)
    {
      if FullDate(year.value, month, day).Valid() {
        return Some(FullDate(year.value, month, day));
      }
      day := day - 1;
    }
    r := None;
  }

  /** Two digits as a number. */
  ghost predicate TwoDigits(tens: char, units: char, n: int) {
    '0' <= tens <= '9' && '0' <= units <= '9' && n == 10 * (tens as int - '0' as int) + (units as int - '0' as int)
  }

  /** The anchor is the last day of the stripped month that exists and is not after the stripped day. */
  lemma AnchorIsLastDay(text: string, year: int)
    requires AnchorFor(text, Some(year)).Some?
    ensures var d := AnchorFor(text, Some(year)).value;
      && |Strip(text)| == 4 && d.Valid() && d.year == year && TwoDigits(Strip(text)[0], Strip(text)[1], d.month)
      && exists day :: TwoDigits(Strip(text)[2], Strip(text)[3], day) && 1 < day <= 31 && d.day <= day
                       && forall k :: d.day < k <= day ==> !FullDate(year, d.month, k).Valid()
  {
    var day := MonthDay(text).value.1;
    assert TwoDigits(Strip(text)[2], Strip(text)[3], day);
  }

  /** There is one for every other day of an existing month and year. */
  lemma AnchorExists(text: string, year: int, month: int, day: int)
    requires |Strip(text)| == 4
    requires TwoDigits(Strip(text)[0], Strip(text)[1], month) && TwoDigits(Strip(text)[2], Strip(text)[3], day)
    ensures AnchorFor(text, Some(year)).Some? <==> 1 <= month <= 12 && 1 < day <= 31 && 1 <= year <= 9999
  {
  }

  /** A well-formed year end has no anchor in an existing year exactly when it is the first of a month. */
  lemma NoAnchorIff(text: string, year: int)
    requires MonthDay(text).Some?
    ensures AnchorFor(text, Some(year)) == None <==> !(1 <= year <= 9999) || Strip(text)[2..] == ['0', '1']
  {
    var mmdd := Strip(text);
    assert mmdd[2..] == [mmdd[2], mmdd[3]];
  }

  /** For instance, none for a year that ends on January 1, though that day exists. */
  lemma JanuaryFirstHasNoAnchor(year: int)
    requires 1 <= year <= 9999
    ensures AnchorFor(['0', '1', '0', '1'], Some(year)) == None && FullDate(year, 1, 1).Valid()
  {
    var text := ['0', '1', '0', '1'];
    assert Strip(text) == text && MonthDay(text) == Some((1, 1));
  }

  lemma NextAnchor(y: int, month: int, day: int)
    requires 1 <= y && 1 <= month <= 12 && 1 <= day <= 31
    ensures DaysBeforeYear(y) + DaysBeforeMonth(y, month) + ClampedDay(y, month, day) + 365
      <= DaysBeforeYear(y + 1) + DaysBeforeMonth(y + 1, month) + ClampedDay(y + 1, month, day)
  {
    MonthAcrossYears(y, month);
  }

  lemma {:induction false} MonthAcrossYears(y: int, month: int)
    requires 1 <= month
    ensures DaysBeforeMonth(y + 1, month) - DaysBeforeMonth(y, month) ==
      if month <= 2 then 0 else YearLength(y + 1) - YearLength(y)
    decreases month
  {
    if month > 1 {
      MonthAcrossYears(y, month - 1);
    }
  }

  lemma {:induction false} AnchorsApart(y: int, z: int, month: int, day: int)
    requires 1 <= y < z && 1 <= month <= 12 && 1 <= day <= 31
    ensures DaysBeforeYear(y) + DaysBeforeMonth(y, month) + ClampedDay(y, month, day) + 365
      <= DaysBeforeYear(z) + DaysBeforeMonth(z, month) + ClampedDay(z, month, day)
    decreases z
  {
    NextAnchor(z - 1, month, day);
    if y < z - 1 {
      AnchorsApart(y, z - 1, month, day);
    }
  }

  /** How far an annual flow's end lies from the anchor; None for anything that is not an annual flow. */
  function DaysFromAnchor(f: Fact, anchor: FullDate): Option<nat>
    requires anchor.Valid()
  {
    if f.end.GetOr("") == "" || Days(f) == None || !InSpan(FY, Days(f).value) then None
    else
      var offset := DayNumber(Parse(f.end.value).value) - DayNumber(anchor);
      Some(if offset < 0 then -offset else offset)
  }

  predicate Near(f: Fact, anchor: FullDate)
    requires anchor.Valid()
  {
    f.val.Some? && DaysFromAnchor(f, anchor).Some? && DaysFromAnchor(f, anchor).value <= FISCAL_ANCHOR_TOLERANCE_DAYS
  }

  /** The windows around the anchors of two fiscal years of one issuer never accept the same fact. */
  lemma AnchorWindowsDisjoint(mmdd: string, y: int, z: int, f: Fact)
    requires y < z && AnchorFor(mmdd, Some(y)).Some? && AnchorFor(mmdd, Some(z)).Some?
    ensures AnchorFor(mmdd, Some(y)).value.Valid() && AnchorFor(mmdd, Some(z)).value.Valid()
    ensures DayNumber(AnchorFor(mmdd, Some(y)).value) + 365 <= DayNumber(AnchorFor(mmdd, Some(z)).value)
    ensures !(Near(f, AnchorFor(mmdd, Some(y)).value) && Near(f, AnchorFor(mmdd, Some(z)).value))
  {
    var (month, day) := MonthDay(mmdd).value;
    AnchorsApart(y, z, month, day);
  }

  // ----- restatements -----

  type PeriodKey = (Option<string>, Option<string>)

  type RecencyKey = (string, int, string)

  function PeriodOf(f: Fact): PeriodKey {
    (f.start, f.end)
  }

  function Recency(f: Fact): RecencyKey {
    (f.filed, f.fy.GetOr(0), f.accn)
  }

  predicate Earlier(a: RecencyKey, b: RecencyKey) {
    Less(a.0, b.0) || (a.0 == b.0 && (a.1 < b.1 || (a.1 == b.1 && Less(a.2, b.2))))
  }

  lemma RecencyTotal()
    ensures forall a, b :: Earlier(a, b) || a == b || Earlier(b, a)
    ensures forall a, b :: Earlier(a, b) ==> !Earlier(b, a) && a != b
    ensures forall a, b, c :: Earlier(a, b) && Earlier(b, c) ==> Earlier(a, c)
  {
    LessTotal();
  }

  function MostRecent(s: seq<Fact>): (r: Fact)
    requires s != []
    ensures r in s
  {
    var last := s[|s| - 1];
    if |s| == 1 then last
    else
      var m := MostRecent(s[..|s| - 1]);
      if Earlier(Recency(m), Recency(last)) then last else m
  }

  lemma {:induction false} MostRecentIsGreatest(s: seq<Fact>)
    requires s != []
    ensures forall f :: f in s ==> !Earlier(Recency(MostRecent(s)), Recency(f))
  {
    RecencyTotal();
    if |s| > 1 {
      MostRecentIsGreatest(s[..|s| - 1]);
      SplitLast(s);
    }
  }

  /** g was filed after f; a missing fiscal year counts as 0, and accessions only break ties. */
  ghost predicate LaterFiled(g: Fact, f: Fact) {
    var x, y := if f.fy.Some? then f.fy.value else 0, if g.fy.Some? then g.fy.value else 0;
    Less(f.filed, g.filed) || (f.filed == g.filed && (x < y || (x == y && Less(f.accn, g.accn))))
  }

  lemma EarlierIsLaterFiled(f: Fact, g: Fact)
    ensures Earlier(Recency(f), Recency(g)) <==> LaterFiled(g, f)
  {
  }

  /** The first of the latest filed. */
  lemma {:induction false} MostRecentIsFirst(s: seq<Fact>) returns (k: nat)
    requires s != []
    ensures k < |s| && s[k] == MostRecent(s)
    ensures forall j :: 0 <= j < k ==> LaterFiled(s[k], s[j])
    ensures forall j :: k <= j < |s| ==> !LaterFiled(s[j], s[k])
  {
    forall f, g ensures Earlier(Recency(f), Recency(g)) <==> LaterFiled(g, f) {
      EarlierIsLaterFiled(f, g);
    }
    k := FirstGreatestRecency(s);
  }

  lemma {:induction false} FirstGreatestRecency(s: seq<Fact>) returns (k: nat)
    requires s != []
    ensures k < |s| && s[k] == MostRecent(s)
    ensures forall j :: 0 <= j < k ==> Earlier(Recency(s[j]), Recency(s[k]))
    ensures forall j :: k <= j < |s| ==> !Earlier(Recency(s[k]), Recency(s[j]))
  {
    RecencyTotal();
    if |s| == 1 {
      k := 0;
    } else {
      var front := s[..|s| - 1];
      k := FirstGreatestRecency(front);
      if Earlier(Recency(front[k]), Recency(s[|s| - 1])) {
        k := |s| - 1;
      }
    }
  }

  predicate OneValue(s: seq<Fact>) {
    forall f, g :: f in s && g in s ==> f.val == g.val
  }

  function KeptOf(group: seq<Fact>): seq<Fact> {
    if group == [] || OneValue(group) then group else [MostRecent(group)]
  }

  /** The periods of the facts, each where it first occurs. */
  function Periods(facts: seq<Fact>): (r: seq<PeriodKey>)
    ensures forall p :: p in r <==> exists f :: f in facts && PeriodOf(f) == p
  {
    if facts == [] then []
    else
      SplitLast(facts);
      var rest := Periods(facts[..|facts| - 1]);
      var p := PeriodOf(facts[|facts| - 1]);
      if p in rest then rest else rest + [p]
  }

  function Group(facts: seq<Fact>, p: PeriodKey): (r: seq<Fact>)
    ensures forall f :: f in r <==> f in facts && PeriodOf(f) == p
  {
    if facts == [] then []
    else
      SplitLast(facts);
      var rest := Group(facts[..|facts| - 1], p);
      if PeriodOf(facts[|facts| - 1]) == p then rest + [facts[|facts| - 1]] else rest
  }

  /** What each period keeps. */
  function KeptFor(facts: seq<Fact>): PeriodKey -> seq<Fact> {
    p => KeptOf(Group(facts, p))
  }

  function Kept(facts: seq<Fact>): seq<Fact> {
    FlatMap(Periods(facts), KeptFor(facts))
  }

  method SupersedeRestated(facts: seq<Fact>) returns (kept: seq<Fact>)
    ensures kept == Kept(facts)
  {
    var order, byPeriod := GroupByPeriod(facts);
    kept := KeepFrom(facts, order, byPeriod);
  }

  /** The loop over the groups. */
  method KeepFrom(ghost facts: seq<Fact>, order: seq<PeriodKey>, byPeriod: map<PeriodKey, seq<Fact>>) returns (kept: seq<Fact>)
    requires forall p :: p in order ==> p in byPeriod && byPeriod[p] == Group(facts, p)
    ensures kept == FlatMap(order, KeptFor(facts))
  {
    kept := [];
    for i := 0 to |order|
      invariant kept == FlatMap(order[..i], KeptFor(facts))
    {
      assert order[..i + 1][..i] == order[..i];
      assert order[i] in order;
      assert KeptFor(facts)(order[i]) == KeptOf(byPeriod[order[i]]);
      kept := kept + KeptOf(byPeriod[order[i]]);
    }
    assert order[..|order|] == order;
  }

  ghost predicate Grouped(facts: seq<Fact>, order: seq<PeriodKey>, byPeriod: map<PeriodKey, seq<Fact>>) {
    && order == Periods(facts)
    && (forall p :: p in byPeriod <==> p in order)
    && (forall p :: p in byPeriod ==> byPeriod[p] == Group(facts, p))
  }

  method GroupByPeriod(facts: seq<Fact>) returns (order: seq<PeriodKey>, byPeriod: map<PeriodKey, seq<Fact>>)
    ensures Grouped(facts, order, byPeriod)
  {
    order, byPeriod := [], map[];
    for i := 0 to |facts|
      invariant Grouped(facts[..i], order, byPeriod)
    {
      assert facts[..i + 1] == facts[..i] + [facts[i]];
      order, byPeriod := AddToGroup(facts[..i], facts[i], order, byPeriod);
    }
    assert facts[..|facts|] == facts;
  }

  lemma GroupSnoc(facts: seq<Fact>, f: Fact, p: PeriodKey)
    ensures Group(facts + [f], p) == if PeriodOf(f) == p then Group(facts, p) + [f] else Group(facts, p)
  {
    assert (facts + [f])[..|facts|] == facts;
  }

  lemma PeriodsSnoc(facts: seq<Fact>, f: Fact)
    ensures Periods(facts + [f]) == if PeriodOf(f) in Periods(facts) then Periods(facts) else Periods(facts) + [PeriodOf(f)]
  {
    assert (facts + [f])[..|facts|] == facts;
  }

  lemma NoPeriodNoGroup(facts: seq<Fact>, p: PeriodKey)
    ensures p !in Periods(facts) ==> Group(facts, p) == []
  {
    NonemptyHasMember(Group(facts, p));
  }

  method AddToGroup(ghost facts: seq<Fact>, f: Fact, order: seq<PeriodKey>, byPeriod: map<PeriodKey, seq<Fact>>)
    returns (order': seq<PeriodKey>, byPeriod': map<PeriodKey, seq<Fact>>)
    requires Grouped(facts, order, byPeriod)
    ensures Grouped(facts + [f], order', byPeriod')
  {
    var p := PeriodOf(f);
    var group := if p in byPeriod then byPeriod[p] else [];
    NoPeriodNoGroup(facts, p);
    forall q { GroupSnoc(facts, f, q); }
    PeriodsSnoc(facts, f);
    order' := if p in byPeriod then order else order + [p];
    byPeriod' := byPeriod[p := group + [f]];
  }

  /** Where filings disagree on a period only the most recently filed fact survives. */
  lemma KeptMembers(facts: seq<Fact>, f: Fact)
    ensures f in Kept(facts) <==>
      f in facts && (OneValue(Group(facts, PeriodOf(f))) || f == MostRecent(Group(facts, PeriodOf(f))))
  {
    FlatMapMembers(Periods(facts), KeptFor(facts), f);
    if f in facts {
      assert PeriodOf(f) in Periods(facts);
    }
  }

  // ----- the choice -----

  predicate FromStatement(f: Fact) {
    f.form == None || IsStatementFact(f)
  }

  function Matches(facts: seq<Fact>, anchor: FullDate): seq<Fact>
    requires anchor.Valid()
  {
    Filter(facts, f => FromStatement(f) && Near(f, anchor))
  }

  /** A year's figure from a statement, or from a form not named, that ends within 45 days of the anchor. */
  ghost predicate AnnualNear(f: Fact, anchor: FullDate)
    requires anchor.Valid()
  {
    && f.val.Some?
    && (f.form == None
        || f.form.value in {Form10K, Form10KA, Form10KT, Form10KTA, Form20F, Form20FA, Form40F, Form40FA,
                            Form10Q, Form10QA, Form10QT, Form10QTA})
    && f.start.Some? && Parse(f.start.value).Some? && f.end.Some? && Parse(f.end.value).Some?
    && 330 <= DayNumber(Parse(f.end.value).value) - DayNumber(Parse(f.start.value).value) <= 400
    && DayNumber(anchor) - 45 <= DayNumber(Parse(f.end.value).value) <= DayNumber(anchor) + 45
  }

  lemma MatchesIff(facts: seq<Fact>, anchor: FullDate, f: Fact)
    requires anchor.Valid()
    ensures f in Matches(facts, anchor) <==> f in facts && AnnualNear(f, anchor)
    ensures AnnualNear(f, anchor) ==>
      var offset := DayNumber(Parse(f.end.value).value) - DayNumber(anchor);
      Distance(f, anchor) == offset || Distance(f, anchor) == -offset
  {
    StatementForms(f);
  }

  /** The matches left by restatements, those of the filing under inspection if there are any. */
  function Preferred(facts: seq<Fact>, accession: string, anchor: FullDate): seq<Fact>
    requires anchor.Valid()
  {
    var kept := Kept(Matches(facts, anchor));
    var same := Filter(kept, (f: Fact) => f.accn == accession);
    if same != [] then same else kept
  }

  function Distance(f: Fact, anchor: FullDate): nat
    requires anchor.Valid()
  {
    DaysFromAnchor(f, anchor).GetOr(0)
  }

  function Closest(s: seq<Fact>, anchor: FullDate): nat
    requires anchor.Valid() && s != []
  {
    var d := Distance(s[|s| - 1], anchor);
    if |s| == 1 then d else
      var c := Closest(s[..|s| - 1], anchor);
      if c <= d then c else d
  }

  lemma {:induction false} ClosestIsLeast(s: seq<Fact>, anchor: FullDate)
    requires anchor.Valid() && s != []
    ensures exists f :: f in s && Distance(f, anchor) == Closest(s, anchor)
    ensures forall f :: f in s ==> Closest(s, anchor) <= Distance(f, anchor)
  {
    SplitLast(s);
    assert s[|s| - 1] in s;
    if |s| > 1 {
      ClosestIsLeast(s[..|s| - 1], anchor);
      var f :| f in s[..|s| - 1] && Distance(f, anchor) == Closest(s[..|s| - 1], anchor);
      assert f in s;
    }
  }

  function Tied(s: seq<Fact>, anchor: FullDate): seq<Fact>
    requires anchor.Valid() && s != []
  {
    Filter(s, f => Distance(f, anchor) == Closest(s, anchor))
  }

  /** The annual fact near the anchor, or None rather than a guess. */
  function ChooseNear(facts: seq<Fact>, accession: string, anchor: FullDate): Option<Fact>
    requires anchor.Valid()
  {
    Nearest(Preferred(facts, accession, anchor), anchor)
  }

  function Nearest(chosen: seq<Fact>, anchor: FullDate): Option<Fact>
    requires anchor.Valid()
  {
    if chosen == [] then None
    else if |chosen| == 1 then Some(chosen[0])
    else
      var tied := Tied(chosen, anchor);
      if tied == [] || !OneValue(tied) then None else Some(tied[0])
  }

  ghost predicate IsNearest(f: Fact, chosen: seq<Fact>, anchor: FullDate)
    requires anchor.Valid()
  {
    f in chosen && forall g :: g in chosen ==>
      Distance(f, anchor) <= Distance(g, anchor) && (Distance(g, anchor) == Distance(f, anchor) ==> g.val == f.val)
  }

  lemma NearestIsNearest(chosen: seq<Fact>, anchor: FullDate)
    requires anchor.Valid() && chosen != []
    ensures Nearest(chosen, anchor).Some? ==> IsNearest(Nearest(chosen, anchor).value, chosen, anchor)
    ensures Nearest(chosen, anchor) == None <==> !OneValue(Tied(chosen, anchor))
  {
    ClosestIsLeast(chosen, anchor);
    var tied := Tied(chosen, anchor);
    if |chosen| == 1 {
      assert forall f :: f in chosen ==> f == chosen[0];
    } else {
      var f :| f in chosen && Distance(f, anchor) == Closest(chosen, anchor);
      assert f in tied;
      assert tied[0] in tied;
    }
  }

  /**
   The chosen fact is a preferred one, none is nearer, and the ones as near carry its value; the choice
   declines exactly when nothing matches or two nearest preferred facts carry different values.
   */
  lemma ChosenIsNearest(facts: seq<Fact>, accession: string, anchor: FullDate)
    requires anchor.Valid()
    ensures var chosen := Preferred(facts, accession, anchor);
      var r := ChooseNear(facts, accession, anchor);
      && (r.Some? ==> IsNearest(r.value, chosen, anchor))
      && (r == None <==> chosen == [] || !OneValue(Tied(chosen, anchor)))
  {
    var chosen := Preferred(facts, accession, anchor);
    if chosen != [] {
      NearestIsNearest(chosen, anchor);
    }
  }

  // ----- independence of fact order -----

  /** Two of these facts for one period and with one recency key carry one value. */
  ghost predicate RecencyDecides(s: seq<Fact>) {
    forall f, g :: f in s && g in s && PeriodOf(f) == PeriodOf(g) && Recency(f) == Recency(g) ==> f.val == g.val
  }

  /** Indistinguishable to the choice. */
  predicate Alike(f: Fact, g: Fact) {
    PeriodOf(f) == PeriodOf(g) && f.accn == g.accn && f.val == g.val
  }

  lemma GroupMembers(a: seq<Fact>, b: seq<Fact>, p: PeriodKey)
    requires forall f :: f in a <==> f in b
    ensures forall f :: f in Group(a, p) <==> f in Group(b, p)
    ensures OneValue(Group(a, p)) <==> OneValue(Group(b, p))
  {
  }

  lemma KeptHasAlike(a: seq<Fact>, b: seq<Fact>, f: Fact)
    requires forall g :: g in a <==> g in b
    requires RecencyDecides(a) && f in Kept(a)
    ensures exists g :: g in Kept(b) && Alike(f, g)
  {
    KeptMembers(a, f);
    KeptMembers(b, f);
    var p := PeriodOf(f);
    GroupMembers(a, b, p);
    if !OneValue(Group(a, p)) {
      var u, v := Group(a, p), Group(b, p);
      MostRecentIsGreatest(u);
      MostRecentIsGreatest(v);
      RecencyTotal();
      var g := MostRecent(v);
      assert Recency(g) == Recency(f);
      KeptMembers(b, g);
    }
  }

  lemma SameFilingCarriesOver(u: seq<Fact>, v: seq<Fact>, accession: string)
    requires (forall g :: g in u <==> g in v) && RecencyDecides(v)
    requires exists f :: f in Kept(v) && f.accn == accession
    ensures exists f :: f in Kept(u) && f.accn == accession
  {
    var f :| f in Kept(v) && f.accn == accession;
    KeptHasAlike(v, u, f);
  }

  lemma PreferredHasAlike(a: seq<Fact>, b: seq<Fact>, accession: string, anchor: FullDate, f: Fact)
    requires anchor.Valid() && (forall g :: g in a <==> g in b)
    requires RecencyDecides(Matches(a, anchor)) && f in Preferred(a, accession, anchor)
    ensures exists g :: g in Preferred(b, accession, anchor) && Alike(f, g)
  {
    var u, v := Matches(a, anchor), Matches(b, anchor);
    KeptHasAlike(u, v, f);
    var g :| g in Kept(v) && Alike(f, g);
    PreferredMembers(a, accession, anchor, f);
    PreferredMembers(b, accession, anchor, g);
    if h :| h in Kept(v) && h.accn == accession {
      SameFilingCarriesOver(u, v, accession);
    }
  }

  lemma PreferredMembers(facts: seq<Fact>, accession: string, anchor: FullDate, f: Fact)
    requires anchor.Valid()
    ensures var kept := Kept(Matches(facts, anchor));
      f in Preferred(facts, accession, anchor) <==>
      f in kept && ((exists h :: h in kept && h.accn == accession) ==> f.accn == accession)
  {
    var kept := Kept(Matches(facts, anchor));
    var same := Filter(kept, (h: Fact) => h.accn == accession);
    if same != [] {
      assert same[0] in same;
    }
    if h :| h in kept && h.accn == accession {
      assert h in same;
    }
  }

  lemma AlikeDistance(f: Fact, g: Fact, anchor: FullDate)
    requires anchor.Valid() && Alike(f, g)
    ensures Distance(f, anchor) == Distance(g, anchor)
  {
  }

  lemma NotFarther(a: seq<Fact>, b: seq<Fact>, accession: string, anchor: FullDate)
    requires anchor.Valid() && (forall g :: g in a <==> g in b) && RecencyDecides(Matches(a, anchor))
    requires Preferred(a, accession, anchor) != []
    ensures Preferred(b, accession, anchor) != []
    ensures Closest(Preferred(b, accession, anchor), anchor) <= Closest(Preferred(a, accession, anchor), anchor)
  {
    var u, v := Preferred(a, accession, anchor), Preferred(b, accession, anchor);
    ClosestIsLeast(u, anchor);
    var f :| f in u && Distance(f, anchor) == Closest(u, anchor);
    PreferredHasAlike(a, b, accession, anchor, f);
    var g :| g in v && Alike(f, g);
    AlikeDistance(f, g, anchor);
    ClosestIsLeast(v, anchor);
  }

  lemma TiedHasAlike(a: seq<Fact>, b: seq<Fact>, accession: string, anchor: FullDate, f: Fact)
    requires anchor.Valid() && (forall g :: g in a <==> g in b) && RecencyDecides(Matches(a, anchor))
    requires Preferred(a, accession, anchor) != [] && f in Tied(Preferred(a, accession, anchor), anchor)
    ensures Preferred(b, accession, anchor) != []
    ensures exists g :: g in Tied(Preferred(b, accession, anchor), anchor) && g.val == f.val
  {
    NotFarther(a, b, accession, anchor);
    NotFarther(b, a, accession, anchor);
    PreferredHasAlike(a, b, accession, anchor, f);
    var g :| g in Preferred(b, accession, anchor) && Alike(f, g);
    AlikeDistance(f, g, anchor);
  }

  /** The value chosen near an anchor does not depend on the order of the facts. */
  lemma ChooseNearOrderIndependent(a: seq<Fact>, b: seq<Fact>, accession: string, anchor: FullDate)
    requires anchor.Valid() && multiset(a) == multiset(b) && RecencyDecides(Matches(a, anchor))
    ensures var x, y := ChooseNear(a, accession, anchor), ChooseNear(b, accession, anchor);
      x.Some? == y.Some? && (x.Some? ==> x.value.val == y.value.val)
  {
    SameMembers(a, b);
    if ChooseNear(a, accession, anchor).Some? {
      ChoiceCarriesOver(a, b, accession, anchor);
    } else if ChooseNear(b, accession, anchor).Some? {
      ChoiceCarriesOver(b, a, accession, anchor);
    }
  }

  lemma ChoiceCarriesOver(a: seq<Fact>, b: seq<Fact>, accession: string, anchor: FullDate)
    requires anchor.Valid() && (forall g :: g in a <==> g in b) && RecencyDecides(Matches(a, anchor))
    requires ChooseNear(a, accession, anchor).Some?
    ensures ChooseNear(b, accession, anchor).Some?
    ensures ChooseNear(b, accession, anchor).value.val == ChooseNear(a, accession, anchor).value.val
  {
    ChosenIsNearest(a, accession, anchor);
    ChosenIsNearest(b, accession, anchor);
    var u, v := Preferred(a, accession, anchor), Preferred(b, accession, anchor);
    var f := ChooseNear(a, accession, anchor).value;
    ClosestIsLeast(u, anchor);
    NotFarther(a, b, accession, anchor);
    ClosestIsLeast(v, anchor);
    forall g | g in Tied(v, anchor) ensures g.val == f.val {
      TiedHasAlike(b, a, accession, anchor, g);
    }
    var h := ChooseNear(b, accession, anchor);
    assert h.Some? ==> h.value in Tied(v, anchor);
  }
}
