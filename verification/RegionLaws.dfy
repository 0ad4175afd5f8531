/** What a localisation answer reports: each cue outside the approved span in a region of its role, each image page,
    each warning and each finding, and nothing else. */
module RegionLaws {
  import opened Basics
  import opened Sorting
  import opened Localisation

  // ------------------------------------------------------------------ what the answer is made of

  function PagesIn(given: seq<PageInfo>): seq<PageInfo> { Sort(given, PageLe) }

  function PageHitsIn(profile: Profile, given: seq<PageInfo>): seq<Hit> {
    Sort(Chosen(HitsOf(profile, PagesIn(given)), false), HitKeyLe)
  }

  /** The regions and findings once the cues of other roles are placed. */
  function PlacedIn(profile: Profile, given: seq<PageInfo>): Found {
    var approved := ApprovedOf(profile, given);
    AddPageHits(profile, PagesIn(given), approved,
      Found(approved, SpanFindings(DocumentIn(profile, given), approved)), PageHitsIn(profile, given))
  }

  function RunsIn(profile: Profile, given: seq<PageInfo>): seq<Region> {
    ImageRuns(ApprovedOf(profile, given), PagesIn(given), 0, None)
  }

  lemma AnswerParts(profile: Profile, given: seq<PageInfo>)
    ensures var placed, runs := PlacedIn(profile, given), RunsIn(profile, given);
      var regions := placed.regions + runs;
      var findings := placed.findings + Expectations(profile, PagesIn(given), regions);
      Localise(profile, given)
        == Answer(if AnyBlocking(findings) then AmbiguousSpan else Proposed, Sort(regions, RegionLe), findings)
  {
  }

  lemma {:induction false} ChosenHas(hits: seq<Hit>, span: bool, h: Hit)
    ensures h in Chosen(hits, span) <==> h in hits && IsSpanHit(h) == span
  {
    if hits != [] {
      ChosenHas(hits[1..], span, h);
      assert hits == [hits[0]] + hits[1..];
    }
  }

  /** A cue of another kind than the approved span, on a page of the document. */
  ghost predicate PageHit(profile: Profile, given: seq<PageInfo>, h: Hit) {
    h in HitsOf(profile, PagesIn(given)) && !IsSpanHit(h)
  }

  lemma PageHitsAre(profile: Profile, given: seq<PageInfo>, h: Hit)
    ensures h in PageHitsIn(profile, given) <==> PageHit(profile, given, h)
  {
    var hits := HitsOf(profile, PagesIn(given));
    SortHas(Chosen(hits, false), HitKeyLe, h);
    ChosenHas(hits, false, h);
  }

  // ------------------------------------------------------------------ each cue has its region

  function UtilityAt(profile: Profile, pages: seq<PageInfo>, q: int): Option<string> {
    var info := FindPage(pages, q);
    if info.Some? then profile.utilityOn(info.value) else None
  }

  function PeriodAt(profile: Profile, pages: seq<PageInfo>, q: int): Option<string> {
    var info := FindPage(pages, q);
    if info.Some? then profile.periodOn(info.value) else None
  }

  /** A cue that is kept out: its role describes other material, and its page is approved. */
  predicate KeptOut(approved: seq<Region>, h: Hit) { InSome(approved, h.page) && h.cue.role in EXCLUSIVE }

  /** The region tells of the cue: it has its role, its sub-role and the utility of its page, and holds that page. */
  predicate TellsOf(r: Region, h: Hit, utility: Option<string>) {
    r.role == h.cue.role && r.subRole == h.cue.subRole && r.utility == utility && Within(r, h.page)
  }

  ghost predicate Told(rs: seq<Region>, h: Hit, utility: Option<string>) {
    exists k :: 0 <= k < |rs| && TellsOf(rs[k], h, utility)
  }

  lemma PlacedIsTold(rs: seq<Region>, h: Hit, utility: Option<string>, period: Option<string>)
    requires forall k :: 0 <= k < |rs| ==> rs[k].start <= rs[k].end
    ensures Told(PlaceHit(rs, h, utility, period), h, utility)
    ensures forall k :: 0 <= k < |PlaceHit(rs, h, utility, period)| ==>
      PlaceHit(rs, h, utility, period)[k].start <= PlaceHit(rs, h, utility, period)[k].end
  {
    var all := PlaceHit(rs, h, utility, period);
    assert TellsOf(all[|all| - 1], h, utility);
  }

  lemma StaysTold(rs: seq<Region>, h: Hit, utility: Option<string>, period: Option<string>, g: Hit, u: Option<string>)
    requires Told(rs, g, u)
    ensures Told(PlaceHit(rs, h, utility, period), g, u)
  {
    var all := PlaceHit(rs, h, utility, period);
    var k :| 0 <= k < |rs| && TellsOf(rs[k], g, u);
    assert TellsOf(all[k], g, u);
  }

  predicate Upright(rs: seq<Region>) { forall k :: 0 <= k < |rs| ==> rs[k].start <= rs[k].end }

  lemma {:induction false} StaysToldAll(profile: Profile, pages: seq<PageInfo>, approved: seq<Region>, f: Found,
        hits: seq<Hit>, g: Hit, u: Option<string>)
    requires Told(f.regions, g, u)
    ensures Told(AddPageHits(profile, pages, approved, f, hits).regions, g, u)
    decreases |hits|
  {
    if hits != [] {
      var h := hits[0];
      StaysTold(f.regions, h, UtilityAt(profile, pages, h.page), PeriodAt(profile, pages, h.page), g, u);
      StaysToldAll(profile, pages, approved, AddPageHit(profile, pages, approved, f, h), hits[1..], g, u);
    }
  }

  lemma {:induction false} AllTold(profile: Profile, pages: seq<PageInfo>, approved: seq<Region>, f: Found,
        hits: seq<Hit>, h: Hit)
    requires Upright(f.regions) && h in hits && !KeptOut(approved, h)
    ensures Told(AddPageHits(profile, pages, approved, f, hits).regions, h, UtilityAt(profile, pages, h.page))
    decreases |hits|
  {
    var g := hits[0];
    var next := AddPageHit(profile, pages, approved, f, g);
    PlacedIsTold(f.regions, g, UtilityAt(profile, pages, g.page), PeriodAt(profile, pages, g.page));
    if g == h {
      StaysToldAll(profile, pages, approved, next, hits[1..], h, UtilityAt(profile, pages, h.page));
    } else {
      AllTold(profile, pages, approved, next, hits[1..], h);
    }
  }

  lemma ApprovedUpright(profile: Profile, given: seq<PageInfo>)
    ensures Upright(ApprovedOf(profile, given))
  {
    var d, hits := DocumentIn(profile, given), SpanHitsIn(profile, given);
    HitsAreSorted(Chosen(HitsOf(profile, Sort(given, PageLe)), true));
    forall k | 0 <= k < |ApprovedOf(profile, given)|
      ensures ApprovedOf(profile, given)[k].start <= ApprovedOf(profile, given)[k].end
    {
      CandidateIsSound(d, hits, k, k);
    }
  }

  /** Every cue of another kind lies in a region of the answer that tells of it, unless it is kept out. */
  lemma CueIsReported(profile: Profile, given: seq<PageInfo>, h: Hit) returns (r: Region)
    requires PageHit(profile, given, h) && !KeptOut(ApprovedOf(profile, given), h)
    ensures r in Localise(profile, given).regions
    ensures TellsOf(r, h, UtilityAt(profile, PagesIn(given), h.page))
  {
    var approved, pages := ApprovedOf(profile, given), PagesIn(given);
    var start := Found(approved, SpanFindings(DocumentIn(profile, given), approved));
    var utility := UtilityAt(profile, pages, h.page);
    ApprovedUpright(profile, given);
    PageHitsAre(profile, given, h);
    AllTold(profile, pages, approved, start, PageHitsIn(profile, given), h);
    var rs := PlacedIn(profile, given).regions;
    var k :| 0 <= k < |rs| && TellsOf(rs[k], h, utility);
    r := rs[k];
    AnswerParts(profile, given);
    assert r in rs + RunsIn(profile, given);
    SortHas(rs + RunsIn(profile, given), RegionLe, r);
  }

  // ------------------------------------------------------------------ and each region has its cues

  /** Page q of the region has a cue that the region tells of. */
  ghost predicate CuedAt(profile: Profile, pages: seq<PageInfo>, approved: seq<Region>, hits: seq<Hit>, r: Region,
        q: int) {
    exists h :: h in hits && !KeptOut(approved, h) && h.page == q && TellsOf(r, h, UtilityAt(profile, pages, q))
  }

  /** Every page of the region is cued, or it is a walked page of an approved region. */
  ghost predicate Cued(profile: Profile, pages: seq<PageInfo>, approved: seq<Region>, hits: seq<Hit>, r: Region) {
    forall q :: Within(r, q) ==>
      (r.role == APPROVED && InSome(approved, q)) || CuedAt(profile, pages, approved, hits, r, q)
  }

  /** The region starts at the cue's page and cites the cue, with the utility and the period of that page. */
  predicate StartsAt(r: Region, h: Hit, utility: Option<string>, period: Option<string>) {
    && r.role == h.cue.role && r.subRole == h.cue.subRole && r.start == r.cuePage == h.page && r.cueText == h.line
    && r.cueKind == "locator" && r.utility == utility && r.period == period && r.note == h.cue.note
  }

  /** The region starts at a cue, or where the walk did. */
  ghost predicate Cites(profile: Profile, pages: seq<PageInfo>, approved: seq<Region>, hits: seq<Hit>, r: Region) {
    || (r.role == APPROVED && exists a :: a in approved && r == a.(end := r.end))
    || exists h :: h in hits && !KeptOut(approved, h)
         && StartsAt(r, h, UtilityAt(profile, pages, h.page), PeriodAt(profile, pages, h.page))
  }

  ghost predicate AllCued(profile: Profile, pages: seq<PageInfo>, approved: seq<Region>, hits: seq<Hit>,
        rs: seq<Region>) {
    forall k :: 0 <= k < |rs| ==>
      Cued(profile, pages, approved, hits, rs[k]) && Cites(profile, pages, approved, hits, rs[k])
  }

  lemma NewIsCued(profile: Profile, pages: seq<PageInfo>, approved: seq<Region>, hits: seq<Hit>, h: Hit)
    requires h in hits && !KeptOut(approved, h)
    ensures var r := HitRegion(h, UtilityAt(profile, pages, h.page), PeriodAt(profile, pages, h.page));
      Cued(profile, pages, approved, hits, r) && Cites(profile, pages, approved, hits, r)
  {
    var r := HitRegion(h, UtilityAt(profile, pages, h.page), PeriodAt(profile, pages, h.page));
    forall q | Within(r, q) ensures CuedAt(profile, pages, approved, hits, r, q) {
      assert TellsOf(r, h, UtilityAt(profile, pages, q));
    }
    assert StartsAt(r, h, UtilityAt(profile, pages, h.page), PeriodAt(profile, pages, h.page));
  }

  lemma JoinedIsCued(profile: Profile, pages: seq<PageInfo>, approved: seq<Region>, hits: seq<Hit>, r: Region, h: Hit)
    requires h in hits && !KeptOut(approved, h) && Cued(profile, pages, approved, hits, r)
    requires Joins(r, h, UtilityAt(profile, pages, h.page)) && r.start <= r.end
    ensures Cued(profile, pages, approved, hits, r.(end := h.page))
  {
    var longer := r.(end := h.page);
    forall q | Within(longer, q)
      ensures (longer.role == APPROVED && InSome(approved, q)) || CuedAt(profile, pages, approved, hits, longer, q)
    {
      if q == h.page {
        assert TellsOf(longer, h, UtilityAt(profile, pages, q));
      } else {
        assert Within(r, q);
        if !(r.role == APPROVED && InSome(approved, q)) {
          var g :| g in hits && !KeptOut(approved, g) && g.page == q && TellsOf(r, g, UtilityAt(profile, pages, q));
          assert TellsOf(longer, g, UtilityAt(profile, pages, q));
        }
      }
    }
  }

  lemma LongerCites(profile: Profile, pages: seq<PageInfo>, approved: seq<Region>, hits: seq<Hit>, r: Region, end: int)
    requires Cites(profile, pages, approved, hits, r)
    ensures Cites(profile, pages, approved, hits, r.(end := end))
  {
    var longer := r.(end := end);
    if r.role == APPROVED && exists a :: a in approved && r == a.(end := r.end) {
      var a :| a in approved && r == a.(end := r.end);
      assert longer == a.(end := longer.end);
    } else {
      var h :| h in hits && !KeptOut(approved, h)
        && StartsAt(r, h, UtilityAt(profile, pages, h.page), PeriodAt(profile, pages, h.page));
      assert StartsAt(longer, h, UtilityAt(profile, pages, h.page), PeriodAt(profile, pages, h.page));
    }
  }

  lemma PlacedIsCued(profile: Profile, pages: seq<PageInfo>, approved: seq<Region>, hits: seq<Hit>, rs: seq<Region>,
        h: Hit)
    requires h in hits && !KeptOut(approved, h) && Upright(rs) && AllCued(profile, pages, approved, hits, rs)
    ensures AllCued(profile, pages, approved, hits,
      PlaceHit(rs, h, UtilityAt(profile, pages, h.page), PeriodAt(profile, pages, h.page)))
  {
    var utility, n := UtilityAt(profile, pages, h.page), |rs|;
    if n > 0 && Joins(rs[n - 1], h, utility) {
      JoinedIsCued(profile, pages, approved, hits, rs[n - 1], h);
      LongerCites(profile, pages, approved, hits, rs[n - 1], h.page);
    } else {
      NewIsCued(profile, pages, approved, hits, h);
    }
  }

  lemma {:induction false} AllAreCued(profile: Profile, pages: seq<PageInfo>, approved: seq<Region>, all: seq<Hit>,
        f: Found, hits: seq<Hit>)
    requires Upright(f.regions) && AllCued(profile, pages, approved, all, f.regions)
    requires forall h :: h in hits ==> h in all
    ensures AllCued(profile, pages, approved, all, AddPageHits(profile, pages, approved, f, hits).regions)
    decreases |hits|
  {
    if hits != [] {
      var h := hits[0];
      var next := AddPageHit(profile, pages, approved, f, h);
      PlacedIsTold(f.regions, h, UtilityAt(profile, pages, h.page), PeriodAt(profile, pages, h.page));
      if !KeptOut(approved, h) { PlacedIsCued(profile, pages, approved, all, f.regions, h); }
      AllAreCued(profile, pages, approved, all, next, hits[1..]);
    }
  }

  lemma WalkedAreCued(profile: Profile, given: seq<PageInfo>)
    ensures AllCued(profile, PagesIn(given), ApprovedOf(profile, given), PageHitsIn(profile, given),
      ApprovedOf(profile, given))
  {
    var approved := ApprovedOf(profile, given);
    var d, hits := DocumentIn(profile, given), SpanHitsIn(profile, given);
    HitsAreSorted(Chosen(HitsOf(profile, Sort(given, PageLe)), true));
    forall k | 0 <= k < |approved|
      ensures Cued(profile, PagesIn(given), approved, PageHitsIn(profile, given), approved[k])
        && Cites(profile, PagesIn(given), approved, PageHitsIn(profile, given), approved[k])
    {
      CandidateIsSound(d, hits, k, k);
      forall q | Within(approved[k], q) ensures InSome(approved, q) { InSomeOf(approved, k, q); }
      assert approved[k] == approved[k].(end := approved[k].end);
    }
  }

  lemma {:induction false} RunsArePages(approved: seq<Region>, pages: seq<PageInfo>, i: nat, run: Option<int>,
        r: Region)
    requires i <= |pages| && r in ImageRuns(approved, pages, i, run)
    ensures r.cueKind == "page_class" && r == ImageRun(r.start, r.end)
    decreases |pages| - i
  {
    if i < |pages| {
      if IsImage(approved, pages[i]) {
        RunsArePages(approved, pages, i + 1, if run.Some? then run else Some(pages[i].index), r);
      } else if r in ImageRuns(approved, pages, i + 1, None) {
        RunsArePages(approved, pages, i + 1, None, r);
      }
    }
  }

  /** Every region of the answer but the image runs has a cue of its role on each of its pages, walked pages of the
      approved span aside, and cites the cue or the walk that it starts with. */
  lemma RegionHasCues(profile: Profile, given: seq<PageInfo>, r: Region)
    requires r in Localise(profile, given).regions && r.cueKind != "page_class"
    ensures var pages, approved, hits := PagesIn(given), ApprovedOf(profile, given), PageHitsIn(profile, given);
      Cued(profile, pages, approved, hits, r) && Cites(profile, pages, approved, hits, r)
  {
    var pages, approved, hits := PagesIn(given), ApprovedOf(profile, given), PageHitsIn(profile, given);
    var start := Found(approved, SpanFindings(DocumentIn(profile, given), approved));
    AnswerParts(profile, given);
    SortHas(PlacedIn(profile, given).regions + RunsIn(profile, given), RegionLe, r);
    if r in RunsIn(profile, given) { RunsArePages(approved, pages, 0, None, r); }
    ApprovedUpright(profile, given);
    WalkedAreCued(profile, given);
    AllAreCued(profile, pages, approved, hits, start, hits);
    var rs := PlacedIn(profile, given).regions;
    var k :| 0 <= k < |rs| && rs[k] == r;
  }

  // ------------------------------------------------------------------ warnings and other findings

  const INSIDE := "existing_or_proposed_cue_inside_approved_region"

  predicate WarnsOf(approved: seq<Region>, h: Hit) {
    InSome(approved, h.page) && h.cue.role in {"proposed_tariff", "existing_tariff"}
  }

  lemma {:induction false} WarningsAre(profile: Profile, pages: seq<PageInfo>, approved: seq<Region>, f: Found,
        hits: seq<Hit>, w: Finding)
    ensures w in AddPageHits(profile, pages, approved, f, hits).findings <==>
      w in f.findings || exists h :: h in hits && WarnsOf(approved, h) && w == Finding(INSIDE, Warning, [h.page])
    decreases |hits|
  {
    if hits != [] {
      var next := AddPageHit(profile, pages, approved, f, hits[0]);
      WarningsAre(profile, pages, approved, next, hits[1..], w);
      assert hits == [hits[0]] + hits[1..];
    }
  }

  lemma {:induction false} HeadingFindingsAre(d: Document, rs: seq<Region>, w: Finding)
    ensures w in HeadingFindings(d, rs) <==>
      exists k :: 0 <= k < |rs| && Unheaded(d, rs[k]) && w == WithoutHeadings(rs[k])
  {
    if rs != [] {
      HeadingFindingsAre(d, rs[1..], w);
      assert Unheaded(d, rs[0]) == !HasSchedule(d, rs[0]);
      if k :| 0 <= k < |rs[1..]| && Unheaded(d, rs[1..][k]) && w == WithoutHeadings(rs[1..][k]) {
        assert rs[k + 1] == rs[1..][k];
      }
      if k :| 0 <= k < |rs| && Unheaded(d, rs[k]) && w == WithoutHeadings(rs[k]) {
        if k > 0 { assert rs[k] == rs[1..][k - 1]; }
      }
    }
  }

  /** No page of the region has a schedule heading. */
  ghost predicate Unheaded(d: Document, r: Region) { forall q :: Within(r, q) ==> q !in d.schedule }

  function WithoutHeadings(r: Region): Finding {
    Finding("approved_region_without_schedule_headings", Warning, [r.start])
  }

  predicate HeadingHas(p: PageInfo, kind: string, code: string) { (kind, Some(code)) in p.headings }

  /** A page prints this code in a heading of the schedule's kind. */
  ghost predicate Prints(profile: Profile, pages: seq<PageInfo>, code: string) {
    code != "" && exists p :: p in pages && HeadingHas(p, profile.scheduleKind, code)
  }

  lemma {:induction false} CodesOnAre(headings: seq<(string, Option<string>)>, kind: string, code: string)
    ensures code in CodesOn(headings, kind) <==> code != "" && (kind, Some(code)) in headings
  {
    if headings != [] {
      CodesOnAre(headings[1..], kind, code);
      assert headings == [headings[0]] + headings[1..];
    }
  }

  lemma {:induction false} CodesSeenAre(profile: Profile, pages: seq<PageInfo>, code: string)
    ensures code in CodesSeen(pages, profile.scheduleKind) <==> Prints(profile, pages, code)
  {
    if pages != [] {
      CodesSeenAre(profile, pages[1..], code);
      CodesOnAre(pages[0].headings, profile.scheduleKind, code);
      assert pages == [pages[0]] + pages[1..];
      assert HeadingHas(pages[0], profile.scheduleKind, code) <==>
        (profile.scheduleKind, Some(code)) in pages[0].headings;
    }
  }

  lemma {:induction false} HasRoleIs(regions: seq<Region>, role: string)
    ensures HasRole(regions, role) <==> exists r :: r in regions && r.role == role
  {
    if regions != [] {
      HasRoleIs(regions[1..], role);
      assert regions == [regions[0]] + regions[1..];
    }
  }

  lemma {:induction false} StartsAre(rs: seq<Region>)
    ensures |Starts(rs)| == |rs| && forall k :: 0 <= k < |rs| ==> Starts(rs)[k] == rs[k].start
  {
    if rs != [] { StartsAre(rs[1..]); }
  }

  /** What the walked candidates gave cause for. */
  ghost predicate IsSpanFinding(d: Document, approved: seq<Region>, w: Finding) {
    || (w == Finding("approved_schedule_not_found", Blocking, []) && approved == [])
    || (w == Finding("multiple_approved_schedule_candidates", Blocking, Starts(approved)) && |approved| > 1)
    || (exists k :: 0 <= k < |approved| && Unheaded(d, approved[k]) && w == WithoutHeadings(approved[k]))
  }

  /** An existing or proposed tariff was named on an approved page. */
  ghost predicate IsWarning(profile: Profile, given: seq<PageInfo>, approved: seq<Region>, w: Finding) {
    exists h :: PageHit(profile, given, h) && WarnsOf(approved, h) && w == Finding(INSIDE, Warning, [h.page])
  }

  lemma SpanFindingsAre(d: Document, approved: seq<Region>, w: Finding)
    ensures w in SpanFindings(d, approved) <==> IsSpanFinding(d, approved, w)
  {
    HeadingFindingsAre(d, approved, w);
  }

  lemma SortedPrints(profile: Profile, given: seq<PageInfo>, code: string)
    ensures Prints(profile, PagesIn(given), code) <==> Prints(profile, given, code)
  {
    forall p ensures p in PagesIn(given) <==> p in given { SortHas(given, PageLe, p); }
  }

  /** A code that must be absent is printed. */
  ghost predicate PrintsAbsent(profile: Profile, pages: seq<PageInfo>) {
    exists code :: code in profile.absentCodes && Prints(profile, pages, code)
  }

  lemma AbsentSeen(profile: Profile, given: seq<PageInfo>)
    ensures CodesSeen(PagesIn(given), profile.scheduleKind) * profile.absentCodes != {}
      <==> PrintsAbsent(profile, given)
  {
    var codes := CodesSeen(PagesIn(given), profile.scheduleKind);
    forall code ensures code in codes <==> Prints(profile, given, code) {
      CodesSeenAre(profile, PagesIn(given), code);
      SortedPrints(profile, given, code);
    }
    if codes * profile.absentCodes != {} { var code :| code in codes * profile.absentCodes; }
    if code :| code in profile.absentCodes && Prints(profile, given, code) {
      assert code in codes * profile.absentCodes;
    }
  }

  ghost predicate Lacks(regions: seq<Region>, role: string) { forall r :: r in regions ==> r.role != role }

  /** What a profile expected and did not find. */
  ghost predicate IsExpectation(profile: Profile, given: seq<PageInfo>, regions: seq<Region>, w: Finding) {
    || (w == Finding("inventory_expectation_mismatch", Warning, []) && profile.expectedHeadings.Some?
          && |CodesSeen(PagesIn(given), profile.scheduleKind)| != profile.expectedHeadings.value)
    || (w == Finding("unexpected_code_found", Blocking, []) && PrintsAbsent(profile, given))
    || (w == Finding("secondary_representation_not_found", Warning, []) && profile.secondaryAuthoritative
          && Lacks(regions, "approved_summary"))
    || (w == Finding("proposed_tariff_absent", Info, []) && Lacks(regions, "proposed_tariff"))
  }

  lemma ExpectationsAre(profile: Profile, given: seq<PageInfo>, regions: seq<Region>, w: Finding)
    ensures w in Expectations(profile, PagesIn(given), regions) <==> IsExpectation(profile, given, regions, w)
  {
    AbsentSeen(profile, given);
    HasRoleIs(regions, "approved_summary");
    HasRoleIs(regions, "proposed_tariff");
    assert Lacks(regions, "approved_summary") == !HasRole(regions, "approved_summary");
    assert Lacks(regions, "proposed_tariff") == !HasRole(regions, "proposed_tariff");
  }

  lemma WarningsOfAnswer(profile: Profile, given: seq<PageInfo>, w: Finding)
    ensures var d, approved := DocumentIn(profile, given), ApprovedOf(profile, given);
      w in PlacedIn(profile, given).findings <==>
        IsSpanFinding(d, approved, w) || IsWarning(profile, given, approved, w)
  {
    var d, approved := DocumentIn(profile, given), ApprovedOf(profile, given);
    var start := Found(approved, SpanFindings(d, approved));
    WarningsAre(profile, PagesIn(given), approved, start, PageHitsIn(profile, given), w);
    SpanFindingsAre(d, approved, w);
    forall h ensures h in PageHitsIn(profile, given) <==> PageHit(profile, given, h) { PageHitsAre(profile, given, h); }
  }

  lemma SameExpectations(profile: Profile, given: seq<PageInfo>, a: seq<Region>, w: Finding)
    ensures IsExpectation(profile, given, a, w) <==> IsExpectation(profile, given, Sort(a, RegionLe), w)
  {
    forall r ensures r in Sort(a, RegionLe) <==> r in a { SortHas(a, RegionLe, r); }
    assert Lacks(a, "approved_summary") == Lacks(Sort(a, RegionLe), "approved_summary");
    assert Lacks(a, "proposed_tariff") == Lacks(Sort(a, RegionLe), "proposed_tariff");
  }

  /** A finding is in the answer exactly when what it says is so: of the walked candidates, of a cue on an approved
      page, or of what the profile expected of the document and of the regions of the answer. */
  lemma FindingsExactly(profile: Profile, given: seq<PageInfo>, w: Finding)
    ensures var answer, approved := Localise(profile, given), ApprovedOf(profile, given);
      w in answer.findings <==>
        || IsSpanFinding(DocumentIn(profile, given), approved, w)
        || IsWarning(profile, given, approved, w)
        || IsExpectation(profile, given, answer.regions, w)
  {
    var regions := PlacedIn(profile, given).regions + RunsIn(profile, given);
    AnswerParts(profile, given);
    WarningsOfAnswer(profile, given, w);
    ExpectationsAre(profile, given, regions, w);
    SameExpectations(profile, given, regions, w);
  }

  lemma {:induction false} BlockingIs(findings: seq<Finding>)
    ensures AnyBlocking(findings) <==> exists w :: w in findings && w.severity == Blocking
  {
    if findings != [] {
      BlockingIs(findings[1..]);
      assert findings == [findings[0]] + findings[1..];
    }
  }

  lemma OnlyTheseBlock(profile: Profile, given: seq<PageInfo>, w: Finding)
    requires w in Localise(profile, given).findings && w.severity == Blocking
    ensures |ApprovedOf(profile, given)| != 1 || PrintsAbsent(profile, given)
  {
    FindingsExactly(profile, given, w);
  }

  lemma TheseBlock(profile: Profile, given: seq<PageInfo>) returns (w: Finding)
    requires |ApprovedOf(profile, given)| != 1 || PrintsAbsent(profile, given)
    ensures w in Localise(profile, given).findings && w.severity == Blocking
  {
    var approved := ApprovedOf(profile, given);
    w := if approved == [] then Finding("approved_schedule_not_found", Blocking, [])
         else if |approved| > 1 then Finding("multiple_approved_schedule_candidates", Blocking, Starts(approved))
         else Finding("unexpected_code_found", Blocking, []);
    FindingsExactly(profile, given, w);
  }

  /** An answer is proposed exactly when the walk found one candidate and no page prints a code that must be absent. */
  lemma ProposedExactly(profile: Profile, given: seq<PageInfo>)
    ensures Localise(profile, given).status == Proposed <==>
      |ApprovedOf(profile, given)| == 1 && !PrintsAbsent(profile, given)
  {
    var findings := Localise(profile, given).findings;
    AnswerParts(profile, given);
    BlockingIs(findings);
    if |ApprovedOf(profile, given)| != 1 || PrintsAbsent(profile, given) {
      var w := TheseBlock(profile, given);
    } else if w :| w in findings && w.severity == Blocking {
      OnlyTheseBlock(profile, given, w);
    }
  }

  // ------------------------------------------------------------------ image pages

  /** Pages a to b are images outside the approved span, and neither neighbour is. */
  ghost predicate RunAt(approved: seq<Region>, pages: seq<PageInfo>, a: nat, b: nat) {
    && a < b <= |pages| && (forall k :: a <= k < b ==> IsImage(approved, pages[k]))
    && (a == 0 || !IsImage(approved, pages[a - 1])) && (b == |pages| || !IsImage(approved, pages[b]))
  }

  /** The region of such a run: up to the page before the next one, or to the last page. */
  function RunOf(pages: seq<PageInfo>, a: nat, b: nat): Region
    requires a < b <= |pages|
  {
    ImageRun(pages[a].index, if b < |pages| then pages[b].index - 1 else pages[b - 1].index)
  }

  ghost predicate IsRun(approved: seq<Region>, pages: seq<PageInfo>, from: nat, r: Region) {
    exists a: nat, b: nat :: from <= a && RunAt(approved, pages, a, b) && r == RunOf(pages, a, b)
  }

  /** The open run starts at page s; when s is i, none is open. */
  ghost predicate OpenFrom(approved: seq<Region>, pages: seq<PageInfo>, s: nat, i: nat) {
    && s <= i <= |pages| && (forall k :: s <= k < i ==> IsImage(approved, pages[k]))
    && (s == 0 || !IsImage(approved, pages[s - 1]))
  }

  lemma RunCloses(approved: seq<Region>, pages: seq<PageInfo>, s: nat, i: nat, r: Region)
    requires OpenFrom(approved, pages, s, i) && (i == |pages| || !IsImage(approved, pages[i]))
    ensures IsRun(approved, pages, s, r) <==>
      (s < i && r == RunOf(pages, s, i)) || (i < |pages| && IsRun(approved, pages, i + 1, r))
  {
    if a: nat, b: nat :| s <= a && RunAt(approved, pages, a, b) && r == RunOf(pages, a, b) {
      assert IsImage(approved, pages[a]);
      if a <= i {
        assert a == s;
        assert b == i;
      }
    }
    if s < i { assert RunAt(approved, pages, s, i); }
  }

  lemma {:induction false} RunsExactly(approved: seq<Region>, pages: seq<PageInfo>, s: nat, i: nat, r: Region)
    requires OpenFrom(approved, pages, s, i)
    ensures var run := if s < i then Some(pages[s].index) else None;
      r in ImageRuns(approved, pages, i, run) <==> IsRun(approved, pages, s, r)
    decreases |pages| - i
  {
    if i < |pages| && IsImage(approved, pages[i]) {
      RunsExactly(approved, pages, s, i + 1, r);
    } else {
      RunCloses(approved, pages, s, i, r);
      if i < |pages| { RunsExactly(approved, pages, i + 1, i + 1, r); }
    }
  }

  /** The image regions of the answer are exactly the runs of image pages outside the approved span, from the first
      page of the run to the last before another page. */
  lemma ImagesExactly(profile: Profile, given: seq<PageInfo>, r: Region)
    ensures r in Localise(profile, given).regions && r.cueKind == "page_class" <==>
      IsRun(ApprovedOf(profile, given), PagesIn(given), 0, r)
  {
    var pages, approved, hits := PagesIn(given), ApprovedOf(profile, given), PageHitsIn(profile, given);
    AnswerParts(profile, given);
    SortHas(PlacedIn(profile, given).regions + RunsIn(profile, given), RegionLe, r);
    RunsExactly(approved, pages, 0, 0, r);
    if r in RunsIn(profile, given) { RunsArePages(approved, pages, 0, None, r); }
    if r in PlacedIn(profile, given).regions { PlacedIsLocated(profile, given, r); }
  }

  lemma PlacedIsLocated(profile: Profile, given: seq<PageInfo>, r: Region)
    requires r in PlacedIn(profile, given).regions
    ensures r.cueKind == "locator"
  {
    var pages, approved, hits := PagesIn(given), ApprovedOf(profile, given), PageHitsIn(profile, given);
    var start := Found(approved, SpanFindings(DocumentIn(profile, given), approved));
    ApprovedUpright(profile, given);
    WalkedAreCued(profile, given);
    AllAreCued(profile, pages, approved, hits, start, hits);
    var rs := PlacedIn(profile, given).regions;
    var k :| 0 <= k < |rs| && rs[k] == r;
    assert Cites(profile, pages, approved, hits, r);
    if a :| a in approved && r == a.(end := r.end) { WalkedIsLocated(profile, given, a); }
  }

  lemma WalkedIsLocated(profile: Profile, given: seq<PageInfo>, a: Region)
    requires a in ApprovedOf(profile, given)
    ensures a.cueKind == "locator"
  {
    var d, hits := DocumentIn(profile, given), SpanHitsIn(profile, given);
    HitsAreSorted(Chosen(HitsOf(profile, Sort(given, PageLe)), true));
    var k :| 0 <= k < |ApprovedOf(profile, given)| && ApprovedOf(profile, given)[k] == a;
    CandidateIsSound(d, hits, k, k);
  }

  // ------------------------------------------------------------------ cues on adjacent pages share a region

  lemma HitKeyTotal(a: Hit, b: Hit)
    ensures HitKeyLe(a, b) || HitKeyLe(b, a)
  {
    TextTotal(a.cue.role, b.cue.role);
    TextTotal(OrEmpty(a.cue.subRole), OrEmpty(b.cue.subRole));
  }

  lemma HitKeyTrans(a: Hit, b: Hit, c: Hit)
    requires HitKeyLe(a, b) && HitKeyLe(b, c)
    ensures HitKeyLe(a, c)
  {
    var (p, q, r) := (a.cue.role, b.cue.role, c.cue.role);
    var (s, t, u) := (OrEmpty(a.cue.subRole), OrEmpty(b.cue.subRole), OrEmpty(c.cue.subRole));
    if p == q && q == r {
      if s != t && t != u {
        TextLeTrans(s, t, u);
        if s == u { TextLeSame(s, t); }
      }
    } else if p != q && q != r {
      TextLeTrans(p, q, r);
      if p == r { TextLeSame(p, q); }
    }
  }

  ghost predicate InKeyOrder(hits: seq<Hit>) { forall i, j :: 0 <= i < j < |hits| ==> HitKeyLe(hits[i], hits[j]) }

  lemma {:induction false} SortedInOrder(hits: seq<Hit>)
    requires Sorted(hits, HitKeyLe)
    ensures InKeyOrder(hits)
  {
    if |hits| > 1 {
      SortedInOrder(hits[1..]);
      forall i, j | 0 <= i < j < |hits| ensures HitKeyLe(hits[i], hits[j]) {
        assert hits[j] == hits[1..][j - 1];
        if i == 0 {
          if j > 1 {
            assert hits[1..][0] == hits[1];
            HitKeyTrans(hits[0], hits[1], hits[j]);
          }
        } else {
          assert hits[i] == hits[1..][i - 1];
        }
      }
    }
  }

  lemma PageHitsInOrder(profile: Profile, given: seq<PageInfo>)
    ensures InKeyOrder(PageHitsIn(profile, given))
  {
    forall a, b ensures HitKeyLe(a, b) || HitKeyLe(b, a) { HitKeyTotal(a, b); }
    SortSorted(Chosen(HitsOf(profile, PagesIn(given)), false), HitKeyLe);
    SortedInOrder(PageHitsIn(profile, given));
  }

  predicate SameKind(a: Hit, b: Hit) { a.cue.role == b.cue.role && a.cue.subRole == b.cue.subRole }

  predicate Twins(approved: seq<Region>, a: Hit, b: Hit) {
    !KeptOut(approved, a) && !KeptOut(approved, b) && SameKind(a, b) && a.page == b.page
  }

  /** Of the cues that are not kept out, no two of one role and sub-role are on one page, and no sub-role is empty. */
  ghost predicate NoTwins(approved: seq<Region>, hits: seq<Hit>) {
    && (forall i, j :: 0 <= i < j < |hits| ==> !Twins(approved, hits[i], hits[j]))
    && (forall i :: 0 <= i < |hits| ==> hits[i].cue.subRole != Some(""))
  }

  /** The regions could be one: they are of one role, sub-role and utility,
    and the second starts right after the first. */
  predicate CouldJoin(a: Region, b: Region) {
    a.role == b.role != APPROVED && a.subRole == b.subRole && a.utility == b.utility && a.end + 1 == b.start
  }

  ghost predicate AllJoined(rs: seq<Region>) {
    forall i, j :: 0 <= i < |rs| && 0 <= j < |rs| ==> !CouldJoin(rs[i], rs[j])
  }

  /** The last region is the one that the latest cue was placed in. */
  ghost predicate LastTells(profile: Profile, pages: seq<PageInfo>, rs: seq<Region>, g: Hit) {
    rs != [] && TellsOf(rs[|rs| - 1], g, UtilityAt(profile, pages, g.page)) && rs[|rs| - 1].end == g.page
  }

  /** Between two cues of one kind in key order all are of that kind, with pages in between. */
  lemma Between(a: Hit, g: Hit, h: Hit)
    requires HitKeyLe(a, g) && HitKeyLe(g, h) && SameKind(a, h)
    requires a.cue.subRole != Some("") && g.cue.subRole != Some("")
    ensures SameKind(g, h) && a.page <= g.page <= h.page
  {
    if a.cue.role != g.cue.role { TextLeSame(a.cue.role, g.cue.role); }
    var (s, t) := (OrEmpty(a.cue.subRole), OrEmpty(g.cue.subRole));
    if s != t { TextLeSame(s, t); }
  }

  /** Cue m is the latest of the first k that was not kept out. */
  ghost predicate Latest(approved: seq<Region>, hits: seq<Hit>, k: nat, m: nat)
    requires k <= |hits|
  {
    m < k && !KeptOut(approved, hits[m]) && forall i :: m < i < k ==> KeptOut(approved, hits[i])
  }

  lemma {:induction false} LatestFrom(approved: seq<Region>, hits: seq<Hit>, k: nat, i: nat) returns (m: nat)
    requires i < k <= |hits| && !KeptOut(approved, hits[i])
    ensures i <= m && Latest(approved, hits, k, m)
    decreases k
  {
    if KeptOut(approved, hits[k - 1]) {
      m := LatestFrom(approved, hits, k - 1, i);
    } else {
      m := k - 1;
    }
  }

  /** The regions after the first k cues. */
  ghost predicate Placed(profile: Profile, pages: seq<PageInfo>, approved: seq<Region>, hits: seq<Hit>, k: nat,
        rs: seq<Region>)
    requires k <= |hits|
  {
    && Upright(rs) && AllCued(profile, pages, approved, hits[..k], rs) && AllJoined(rs)
    && forall m: nat :: Latest(approved, hits, k, m) ==> LastTells(profile, pages, rs, hits[m])
  }

  lemma CuedMore(profile: Profile, pages: seq<PageInfo>, approved: seq<Region>, few: seq<Hit>, more: seq<Hit>,
        rs: seq<Region>)
    requires AllCued(profile, pages, approved, few, rs) && forall h :: h in few ==> h in more
    ensures AllCued(profile, pages, approved, more, rs)
  {
    forall k | 0 <= k < |rs|
      ensures Cued(profile, pages, approved, more, rs[k]) && Cites(profile, pages, approved, more, rs[k])
    {
      assert Cued(profile, pages, approved, few, rs[k]) && Cites(profile, pages, approved, few, rs[k]);
    }
  }

  /** A region of another role than the approved one has, on each page, one of the first k cues. */
  lemma CueOf(profile: Profile, pages: seq<PageInfo>, approved: seq<Region>, hits: seq<Hit>, k: nat, rs: seq<Region>,
        n: nat, q: int) returns (i: nat)
    requires k <= |hits| && AllCued(profile, pages, approved, hits[..k], rs) && n < |rs|
    requires rs[n].role != APPROVED && Within(rs[n], q)
    ensures i < k && !KeptOut(approved, hits[i]) && hits[i].page == q
    ensures TellsOf(rs[n], hits[i], UtilityAt(profile, pages, q))
  {
    assert Cued(profile, pages, approved, hits[..k], rs[n]);
    var h :| h in hits[..k] && !KeptOut(approved, h) && h.page == q
      && TellsOf(rs[n], h, UtilityAt(profile, pages, q));
    i :| 0 <= i < k && hits[i] == h;
  }

  /** No region of the kind of the next cue starts after its page. */
  lemma StartsBefore(profile: Profile, pages: seq<PageInfo>, approved: seq<Region>, hits: seq<Hit>, k: nat,
        rs: seq<Region>, n: nat)
    requires k < |hits| && InKeyOrder(hits) && Placed(profile, pages, approved, hits, k, rs) && n < |rs|
    requires rs[n].role == hits[k].cue.role != APPROVED && rs[n].subRole == hits[k].cue.subRole
    ensures rs[n].start <= hits[k].page
  {
    var i := CueOf(profile, pages, approved, hits, k, rs, n, rs[n].start);
    assert HitKeyLe(hits[i], hits[k]);
  }

  /** A region that ends right before the next cue, of its kind and utility, is the last one. */
  lemma EndsBefore(profile: Profile, pages: seq<PageInfo>, approved: seq<Region>, hits: seq<Hit>, k: nat,
        rs: seq<Region>, n: nat)
    requires k < |hits| && InKeyOrder(hits) && NoTwins(approved, hits) && !KeptOut(approved, hits[k])
    requires Placed(profile, pages, approved, hits, k, rs) && n < |rs|
    requires rs[n].role == hits[k].cue.role != APPROVED && rs[n].subRole == hits[k].cue.subRole
    requires rs[n].end + 1 == hits[k].page && rs[n].utility == UtilityAt(profile, pages, hits[k].page)
    ensures Joins(rs[|rs| - 1], hits[k], UtilityAt(profile, pages, hits[k].page))
  {
    var i := CueOf(profile, pages, approved, hits, k, rs, n, rs[n].end);
    var m := LatestFrom(approved, hits, k, i);
    assert HitKeyLe(hits[i], hits[k]) && HitKeyLe(hits[m], hits[k]);
    if i < m {
      assert HitKeyLe(hits[i], hits[m]);
      Between(hits[i], hits[m], hits[k]);
    }
    assert !Twins(approved, hits[m], hits[k]);
    assert LastTells(profile, pages, rs, hits[m]);
  }

  lemma LongerJoined(profile: Profile, pages: seq<PageInfo>, approved: seq<Region>, hits: seq<Hit>, k: nat,
        rs: seq<Region>)
    requires k < |hits| && InKeyOrder(hits) && Placed(profile, pages, approved, hits, k, rs) && rs != []
    requires Joins(rs[|rs| - 1], hits[k], UtilityAt(profile, pages, hits[k].page))
    ensures AllJoined(rs[|rs| - 1 := rs[|rs| - 1].(end := hits[k].page)])
  {
    var n := |rs| - 1;
    var all := rs[n := rs[n].(end := hits[k].page)];
    forall i, j | 0 <= i < |all| && 0 <= j < |all| ensures !CouldJoin(all[i], all[j]) {
      assert !CouldJoin(rs[i], rs[j]);
      if i == n && rs[j].role == rs[n].role != APPROVED && rs[j].subRole == rs[n].subRole {
        StartsBefore(profile, pages, approved, hits, k, rs, j);
      }
    }
  }

  lemma OneMoreJoined(profile: Profile, pages: seq<PageInfo>, approved: seq<Region>, hits: seq<Hit>, k: nat,
        rs: seq<Region>, r: Region)
    requires k < |hits| && InKeyOrder(hits) && NoTwins(approved, hits) && !KeptOut(approved, hits[k])
    requires Placed(profile, pages, approved, hits, k, rs)
    requires var h, u := hits[k], UtilityAt(profile, pages, hits[k].page);
      && r == HitRegion(h, u, PeriodAt(profile, pages, h.page)) && !(rs != [] && Joins(rs[|rs| - 1], h, u))
    ensures AllJoined(rs + [r])
  {
    var all := rs + [r];
    forall i, j | 0 <= i < |all| && 0 <= j < |all| ensures !CouldJoin(all[i], all[j]) {
      if i < |rs| && j < |rs| {
        assert !CouldJoin(rs[i], rs[j]);
      } else if i < |rs| {
        if CouldJoin(rs[i], r) { EndsBefore(profile, pages, approved, hits, k, rs, i); }
      } else if j < |rs| {
        if rs[j].role == r.role != APPROVED && rs[j].subRole == r.subRole {
          StartsBefore(profile, pages, approved, hits, k, rs, j);
        }
      }
    }
  }

  lemma SkippedPlaced(profile: Profile, pages: seq<PageInfo>, approved: seq<Region>, hits: seq<Hit>, k: nat,
        rs: seq<Region>)
    requires k < |hits| && KeptOut(approved, hits[k]) && Placed(profile, pages, approved, hits, k, rs)
    ensures Placed(profile, pages, approved, hits, k + 1, rs)
  {
    var u := k + 1;
    CuedMore(profile, pages, approved, hits[..k], hits[..u], rs);
    forall m: nat | Latest(approved, hits, u, m) ensures LastTells(profile, pages, rs, hits[m]) {
      assert Latest(approved, hits, k, m);
    }
  }

  lemma PutIsLast(profile: Profile, pages: seq<PageInfo>, rs: seq<Region>, h: Hit)
    requires Upright(rs)
    ensures LastTells(profile, pages,
      PlaceHit(rs, h, UtilityAt(profile, pages, h.page), PeriodAt(profile, pages, h.page)), h)
  {
  }

  lemma PutJoined(profile: Profile, pages: seq<PageInfo>, approved: seq<Region>, hits: seq<Hit>, k: nat,
        rs: seq<Region>)
    requires k < |hits| && InKeyOrder(hits) && NoTwins(approved, hits) && !KeptOut(approved, hits[k])
    requires Placed(profile, pages, approved, hits, k, rs)
    ensures var h := hits[k];
      AllJoined(PlaceHit(rs, h, UtilityAt(profile, pages, h.page), PeriodAt(profile, pages, h.page)))
  {
    var h := hits[k];
    var u := UtilityAt(profile, pages, h.page);
    if rs != [] && Joins(rs[|rs| - 1], h, u) {
      LongerJoined(profile, pages, approved, hits, k, rs);
    } else {
      OneMoreJoined(profile, pages, approved, hits, k, rs, HitRegion(h, u, PeriodAt(profile, pages, h.page)));
    }
  }

  lemma PutPlaced(profile: Profile, pages: seq<PageInfo>, approved: seq<Region>, hits: seq<Hit>, k: nat,
        rs: seq<Region>, next: seq<Region>)
    requires k < |hits| && !KeptOut(approved, hits[k])
    requires Upright(next) && AllCued(profile, pages, approved, hits[..k + 1], next) && AllJoined(next)
    requires LastTells(profile, pages, next, hits[k])
    ensures Placed(profile, pages, approved, hits, k + 1, next)
  {
    var u := k + 1;
    forall m: nat | Latest(approved, hits, u, m) ensures m == k { }
  }

  lemma PlacedNext(profile: Profile, pages: seq<PageInfo>, approved: seq<Region>, hits: seq<Hit>, k: nat,
        rs: seq<Region>)
    requires k < |hits| && InKeyOrder(hits) && NoTwins(approved, hits) && !KeptOut(approved, hits[k])
    requires Placed(profile, pages, approved, hits, k, rs)
    ensures var h := hits[k];
      Placed(profile, pages, approved, hits, k + 1,
        PlaceHit(rs, h, UtilityAt(profile, pages, h.page), PeriodAt(profile, pages, h.page)))
  {
    var h := hits[k];
    var u, p := UtilityAt(profile, pages, h.page), PeriodAt(profile, pages, h.page);
    CuedMore(profile, pages, approved, hits[..k], hits[..k + 1], rs);
    assert hits[..k + 1][k] == h;
    PlacedIsTold(rs, h, u, p);
    PlacedIsCued(profile, pages, approved, hits[..k + 1], rs, h);
    PutIsLast(profile, pages, rs, h);
    PutJoined(profile, pages, approved, hits, k, rs);
    PutPlaced(profile, pages, approved, hits, k, rs, PlaceHit(rs, h, u, p));
  }

  lemma {:induction false} AllPlaced(profile: Profile, pages: seq<PageInfo>, approved: seq<Region>, hits: seq<Hit>,
        k: nat, f: Found)
    requires k <= |hits| && InKeyOrder(hits) && NoTwins(approved, hits)
    requires Placed(profile, pages, approved, hits, k, f.regions)
    ensures AllJoined(AddPageHits(profile, pages, approved, f, hits[k..]).regions)
    decreases |hits| - k
  {
    if k < |hits| {
      assert hits[k..][0] == hits[k] && hits[k..][1..] == hits[k + 1..];
      if KeptOut(approved, hits[k]) {
        SkippedPlaced(profile, pages, approved, hits, k, f.regions);
      } else {
        PlacedNext(profile, pages, approved, hits, k, f.regions);
      }
      AllPlaced(profile, pages, approved, hits, k + 1, AddPageHit(profile, pages, approved, f, hits[k]));
    }
  }

  lemma WalkedPlaced(profile: Profile, given: seq<PageInfo>)
    ensures Placed(profile, PagesIn(given), ApprovedOf(profile, given), PageHitsIn(profile, given), 0,
      ApprovedOf(profile, given))
  {
    var d, hits := DocumentIn(profile, given), SpanHitsIn(profile, given);
    var approved, pages := ApprovedOf(profile, given), PagesIn(given);
    ApprovedUpright(profile, given);
    HitsAreSorted(Chosen(HitsOf(profile, Sort(given, PageLe)), true));
    forall k | 0 <= k < |approved|
      ensures Cued(profile, pages, approved, [], approved[k]) && Cites(profile, pages, approved, [], approved[k])
        && approved[k].role == APPROVED
    {
      CandidateIsSound(d, hits, k, k);
      forall q | Within(approved[k], q) ensures InSome(approved, q) { InSomeOf(approved, k, q); }
      assert approved[k] == approved[k].(end := approved[k].end);
    }
    assert PageHitsIn(profile, given)[..0] == [];
  }

  /** Unless two cues of one role and sub-role are on one page, no two regions of another role than the approved one
      that are of one role, sub-role and utility stand on adjacent pages: they are one region. */
  lemma AdjacentAreJoined(profile: Profile, given: seq<PageInfo>, a: Region, b: Region)
    requires NoTwins(ApprovedOf(profile, given), PageHitsIn(profile, given))
    requires a in Localise(profile, given).regions && b in Localise(profile, given).regions
    requires a.cueKind == b.cueKind == "locator"
    ensures !CouldJoin(a, b)
  {
    var pages, approved, hits := PagesIn(given), ApprovedOf(profile, given), PageHitsIn(profile, given);
    var start := Found(approved, SpanFindings(DocumentIn(profile, given), approved));
    AnswerParts(profile, given);
    SortHas(PlacedIn(profile, given).regions + RunsIn(profile, given), RegionLe, a);
    SortHas(PlacedIn(profile, given).regions + RunsIn(profile, given), RegionLe, b);
    if a in RunsIn(profile, given) { RunsArePages(approved, pages, 0, None, a); }
    if b in RunsIn(profile, given) { RunsArePages(approved, pages, 0, None, b); }
    PageHitsInOrder(profile, given);
    WalkedPlaced(profile, given);
    AllPlaced(profile, pages, approved, hits, 0, start);
    assert hits[0..] == hits;
    var rs := PlacedIn(profile, given).regions;
    var i :| 0 <= i < |rs| && rs[i] == a;
    var j :| 0 <= j < |rs| && rs[j] == b;
  }

  // ------------------------------------------------------------------ the walked candidates

  /** The candidate starts at the hit's page and cites the hit. */
  predicate OpensAt(r: Region, h: Hit) {
    && r.role == APPROVED && r.subRole == r.utility == r.period == None && r.start == r.cuePage == h.page
    && r.cueText == h.line && r.cueKind == "locator" && r.note == h.cue.note
  }

  /** The candidate is what the walk from one of the first k hits reached, or reaches on to a later hit. */
  ghost predicate Walked(d: Document, hits: seq<Hit>, k: nat, r: Region)
    requires k <= |hits|
  {
    && (exists m :: 0 <= m < k && OpensAt(r, hits[m]))
    && d.SpanEnd(r.start) <= r.end && (r.end == d.SpanEnd(r.start) || HitPage(hits, k, r.end))
  }

  ghost predicate AllWalked(d: Document, hits: seq<Hit>, k: nat, rs: seq<Region>)
    requires k <= |hits|
  {
    forall i :: 0 <= i < |rs| ==> Walked(d, hits, k, rs[i])
  }

  lemma WalkedMore(d: Document, hits: seq<Hit>, k: nat, r: Region)
    requires k < |hits| && Walked(d, hits, k, r)
    ensures Walked(d, hits, k + 1, r)
  {
    var m :| 0 <= m < k && OpensAt(r, hits[m]);
    assert 0 <= m < k + 1;
  }

  lemma WalkedFurther(d: Document, hits: seq<Hit>, k: nat, r: Region)
    requires k < |hits| && Walked(d, hits, k, r)
    ensures Walked(d, hits, k + 1, r.(end := Max(r.end, hits[k].page)))
  {
    var longer := r.(end := Max(r.end, hits[k].page));
    var m :| 0 <= m < k && OpensAt(r, hits[m]);
    assert OpensAt(longer, hits[m]);
    if longer.end == r.end { WalkedMore(d, hits, k, r); }
  }

  lemma NewIsWalked(d: Document, hits: seq<Hit>, k: nat)
    requires k < |hits|
    ensures Walked(d, hits, k + 1, NewCandidate(d, hits[k]))
  {
    assert OpensAt(NewCandidate(d, hits[k]), hits[k]);
  }

  lemma AddHitWalked(d: Document, hits: seq<Hit>, k: nat, rs: seq<Region>)
    requires k < |hits| && AllWalked(d, hits, k, rs)
    ensures AllWalked(d, hits, k + 1, AddHit(d, rs, hits[k]))
  {
    forall i | 0 <= i < |rs| ensures Walked(d, hits, k + 1, rs[i]) { WalkedMore(d, hits, k, rs[i]); }
    if rs != [] { WalkedFurther(d, hits, k, rs[|rs| - 1]); }
    NewIsWalked(d, hits, k);
  }

  /** Every candidate is what the walk from its first hit reached, or reaches on to a hit after that. */
  lemma {:induction false} CandidatesAreWalked(d: Document, hits: seq<Hit>, k: nat)
    requires k <= |hits|
    ensures AllWalked(d, hits, k, Candidates(d, hits, k))
  {
    if k > 0 {
      CandidatesAreWalked(d, hits, k - 1);
      AddHitWalked(d, hits, k - 1, Candidates(d, hits, k - 1));
    }
  }
}
