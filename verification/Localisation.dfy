/** Where in a document the approved schedule is: candidate spans grown page by page, regions of
    other roles, image-only runs, and the findings that make the answer ambiguous. */
module Localisation {
  import opened Basics
  import opened Sorting

  // ------------------------------------------------------------------ entities

  datatype PageInfo = PageInfo(index: int, pageClass: string, headings: seq<(string, Option<string>)>, text: string)

  datatype Cue = Cue(role: string, subRole: Option<string>, scope: string, note: Option<string>)

  datatype Hit = Hit(cue: Cue, page: int, line: string)

  datatype Region = Region(
    role: string,
    subRole: Option<string>,
    start: int,
    end: int,
    cueText: string,
    cuePage: int,
    cueKind: string,
    utility: Option<string>,
    period: Option<string>,
    note: Option<string>)

  datatype Severity = Blocking | Warning | Info

  datatype Finding = Finding(code: string, severity: Severity, pages: seq<int>)

  datatype Status = Proposed | AmbiguousSpan

  datatype Answer = Answer(status: Status, regions: seq<Region>, findings: seq<Finding>)

  /** What a profile expects; the cues it finds on a page and the names it reads there are rules of text. */
  datatype Profile = Profile(
    scheduleKind: string,
    expectedHeadings: Option<nat>,
    absentCodes: set<string>,
    secondaryAuthoritative: bool,
    cuesOn: PageInfo -> seq<(Cue, string)>,
    utilityOn: PageInfo -> Option<string>,
    periodOn: PageInfo -> Option<string>)

  const APPROVED := "approved_schedule"
  const IMAGE_ONLY := "image_only"

  // ------------------------------------------------------------------ growing a span

  /** The document as the span walk sees it. */
  datatype Document = Document(byIndex: map<int, PageInfo>, last: int, schedule: set<int>, spans: set<int>,
        stops: set<int>) {

    /** A page that neither the walk nor the tail may enter. */
    predicate Barred(q: int) { q in stops || q !in byIndex || byIndex[q].pageClass == IMAGE_ONLY }

    /** A page with a schedule heading or a further span hit. */
    predicate Marked(q: int) { q in schedule || q in spans }

    /** A heading of another kind closes the span, except directly after the hit. */
    predicate Closes(hit: int, q: int)
      requires !Barred(q)
    {
      !Marked(q) && byIndex[q].headings != [] && q - 1 != hit
    }

    /** The last marked page that the walk from p reaches; `end` is the last one so far. */
    function Walk(hit: int, p: int, end: int): int
      decreases last - p
    {
      if p >= last || Barred(p + 1) then end
      else if Marked(p + 1) then Walk(hit, p + 1, p + 1)
      else if Closes(hit, p + 1) then end
      else Walk(hit, p + 1, end)
    }

    /** Pages without any heading belong to the span before them. */
    function Tail(t: int): int
      decreases last - t
    {
      if t >= last || Barred(t + 1) || byIndex[t + 1].headings != [] then t else Tail(t + 1)
    }

    function SpanEnd(hit: int): int { Tail(Walk(hit, hit, hit)) }
  }

  function Max(a: int, b: int): int { if a < b then b else a }

  function NewCandidate(d: Document, h: Hit): Region {
    Region(APPROVED, None, h.page, d.SpanEnd(h.page), h.line, h.page, "locator", None, None, h.cue.note)
  }

  /** One more hit: it extends the last candidate when it lies in it or directly after it. */
  function AddHit(d: Document, done: seq<Region>, h: Hit): seq<Region> {
    if done != [] && done[|done| - 1].start <= h.page <= done[|done| - 1].end + 1
    then done[|done| - 1 := done[|done| - 1].(end := Max(done[|done| - 1].end, h.page))]
    else done + [NewCandidate(d, h)]
  }

  /** The candidates after the first k hits. */
  function Candidates(d: Document, hits: seq<Hit>, k: nat): seq<Region>
    requires k <= |hits|
  {
    if k == 0 then [] else AddHit(d, Candidates(d, hits, k - 1), hits[k - 1])
  }

  /** The end of one span, page by page. */
  method GrowSpan(d: Document, hit: int) returns (end: int)
    ensures end == d.SpanEnd(hit)
  {
    end := hit;
    var p := hit;
    var open := true;
    while p < d.last && open
      invariant end <= p
      invariant d.Walk(hit, hit, hit) == if open then d.Walk(hit, p, end) else end
      decreases d.last - p, open
    {
      var nxt := p + 1;
      if d.Barred(nxt) {
        open := false;
      } else if d.Marked(nxt) {
        end := nxt;
        p := nxt;
      } else if d.byIndex[nxt].headings != [] && end != nxt && nxt - 1 != hit {
        open := false;
      } else {
        p := nxt;
      }
    }
    var tail := end;
    while tail < d.last && !d.Barred(tail + 1) && d.byIndex[tail + 1].headings == []
      invariant d.Tail(end) == d.Tail(tail)
      decreases d.last - tail
    {
      tail := tail + 1;
    }
    end := tail;
  }

  predicate HasSchedule(d: Document, r: Region) { exists q :: q in d.schedule && r.start <= q <= r.end }

  function Starts(rs: seq<Region>): seq<int> { if rs == [] then [] else [rs[0].start] + Starts(rs[1..]) }

  function HeadingFindings(d: Document, rs: seq<Region>): seq<Finding> {
    if rs == [] then []
    else
      (if HasSchedule(d, rs[0]) then []
        else [Finding("approved_region_without_schedule_headings", Warning, [rs[0].start])])
      + HeadingFindings(d, rs[1..])
  }

  function SpanFindings(d: Document, candidates: seq<Region>): seq<Finding> {
    (if candidates == [] then [Finding("approved_schedule_not_found", Blocking, [])]
     else if |candidates| > 1 then [Finding("multiple_approved_schedule_candidates", Blocking, Starts(candidates))]
     else [])
    + HeadingFindings(d, candidates)
  }

  predicate PageLe(a: PageInfo, b: PageInfo) { a.index <= b.index }

  predicate HitLe(a: Hit, b: Hit) { a.page <= b.page }

  function IndexOf(pages: seq<PageInfo>): map<int, PageInfo> {
    if pages == [] then map[] else IndexOf(pages[..|pages| - 1])[pages[|pages| - 1].index := pages[|pages| - 1]]
  }

  function MaxIndex(pages: seq<PageInfo>): int
    requires pages != []
  {
    if |pages| == 1 then pages[0].index else Max(pages[0].index, MaxIndex(pages[1..]))
  }

  function DocumentOf(profile: Profile, pages: seq<PageInfo>, spanHits: seq<Hit>, stops: set<int>): Document {
    Document(
      IndexOf(pages),
      if pages == [] then 0 else MaxIndex(pages),
      set p | p in pages && OfKind(p.headings, profile.scheduleKind) :: p.index,
      set h | h in spanHits :: h.page,
      stops)
  }

  predicate OfKind(headings: seq<(string, Option<string>)>, kind: string) {
    headings != [] && (headings[0].0 == kind || OfKind(headings[1..], kind))
  }

  /** Groups span hits into candidates. */
  method ApprovedSpan(profile: Profile, pages: seq<PageInfo>, spanHits: seq<Hit>, stops: set<int>)
    returns (candidates: seq<Region>, findings: seq<Finding>)
    ensures var d := DocumentOf(profile, pages, spanHits, stops); var hits := Sort(spanHits, HitLe);
      candidates == Candidates(d, hits, |hits|) && findings == SpanFindings(d, candidates)
  {
    var d, hits := DocumentOf(profile, pages, spanHits, stops), Sort(spanHits, HitLe);
    candidates := [];
    for k := 0 to |hits|
      invariant candidates == Candidates(d, hits, k)
    {
      var hit, n := hits[k], |candidates|;
      if n > 0 && candidates[n - 1].start <= hit.page <= candidates[n - 1].end + 1 {
        candidates := candidates[n - 1 := candidates[n - 1].(end := Max(candidates[n - 1].end, hit.page))];
      } else {
        var end := GrowSpan(d, hit.page);
        candidates := candidates +
          [Region(APPROVED, None, hit.page, end, hit.line, hit.page, "locator", None, None, hit.cue.note)];
      }
    }
    findings := SpanFindings(d, candidates);
  }

  // ------------------------------------------------------------------ the end of a span, declared

  /** The walk may pass page q: it is not barred, and no other heading closes the span there. */
  ghost predicate Passable(d: Document, hit: int, q: int) { !d.Barred(q) && !d.Closes(hit, q) }

  lemma {:induction false} WalkIsSound(d: Document, hit: int, p: int, end: int)
    requires hit <= end <= p && forall q :: hit < q <= p ==> Passable(d, hit, q)
    ensures end <= d.Walk(hit, p, end)
    ensures d.Walk(hit, p, end) == end || (d.Marked(d.Walk(hit, p, end)) && d.Walk(hit, p, end) <= d.last)
    ensures forall q :: hit < q <= d.Walk(hit, p, end) ==> Passable(d, hit, q)
    decreases d.last - p
  {
    if p < d.last && !d.Barred(p + 1) {
      if d.Marked(p + 1) {
        WalkIsSound(d, hit, p + 1, p + 1);
      } else if !d.Closes(hit, p + 1) {
        WalkIsSound(d, hit, p + 1, end);
      }
    }
  }

  /** Every marked page that can be reached is reached. */
  lemma {:induction false} WalkIsComplete(d: Document, hit: int, p: int, end: int, q: int)
    requires hit <= end <= p < q <= d.last && d.Marked(q) && forall n :: hit < n <= q ==> Passable(d, hit, n)
    ensures d.Walk(hit, p, end) >= q
    decreases d.last - p
  {
    assert Passable(d, hit, p + 1);
    if p + 1 < q {
      WalkIsComplete(d, hit, p + 1, if d.Marked(p + 1) then p + 1 else end, q);
    } else {
      WalkGrows(d, hit, q, q);
    }
  }

  lemma {:induction false} WalkGrows(d: Document, hit: int, p: int, end: int)
    requires end <= p
    ensures d.Walk(hit, p, end) >= end
    decreases d.last - p
  {
    if p < d.last && !d.Barred(p + 1) {
      if d.Marked(p + 1) {
        WalkGrows(d, hit, p + 1, p + 1);
      } else if !d.Closes(hit, p + 1) {
        WalkGrows(d, hit, p + 1, end);
      }
    }
  }

  /** A page the tail may take in. */
  ghost predicate Bare(d: Document, q: int) { !d.Barred(q) && d.byIndex[q].headings == [] }

  lemma {:induction false} TailIsExact(d: Document, t: int)
    ensures t <= d.Tail(t) && (forall q :: t < q <= d.Tail(t) ==> Bare(d, q))
    ensures d.Tail(t) >= d.last || !Bare(d, d.Tail(t) + 1)
    decreases d.last - t
  {
    if t < d.last && Bare(d, t + 1) { TailIsExact(d, t + 1); }
  }

  /** A span runs to the last page with a schedule heading or span hit that can be reached from its
      hit, and then over the pages without headings that follow; nothing else. */
  lemma SpanEndIsExact(d: Document, hit: int)
    ensures var m, e := d.Walk(hit, hit, hit), d.SpanEnd(hit);
      && hit <= m <= e
      && (m == hit || d.Marked(m))
      && (forall q :: hit < q <= m ==> Passable(d, hit, q))
      && (forall q :: m < q <= e ==> Bare(d, q))
      && (e >= d.last || !Bare(d, e + 1))
      && forall q :: hit < q <= d.last && d.Marked(q) && (forall n :: hit < n <= q ==> Passable(d, hit, n)) ==> q <= m
  {
    WalkIsSound(d, hit, hit, hit);
    TailIsExact(d, d.Walk(hit, hit, hit));
    forall q | hit < q <= d.last && d.Marked(q) && (forall n :: hit < n <= q ==> Passable(d, hit, n))
      ensures q <= d.Walk(hit, hit, hit)
    {
      WalkIsComplete(d, hit, hit, hit, q);
    }
  }

  // ------------------------------------------------------------------ what the candidates keep

  predicate Within(r: Region, q: int) { r.start <= q <= r.end }

  predicate SortedHits(hits: seq<Hit>)
  {
    |hits| < 2 || (hits[|hits| - 2].page <= hits[|hits| - 1].page && SortedHits(hits[..|hits| - 1]))
  }

  /** One of the first k hits is on page q. */
  predicate HitPage(hits: seq<Hit>, k: nat, q: int)
    requires k <= |hits|
  {
    k > 0 && (hits[k - 1].page == q || HitPage(hits, k - 1, q))
  }

  /** It starts at a hit, and every other page of it is a hit page, or exists and is neither a stop
      page nor an image. */
  ghost predicate GoodCandidate(d: Document, hits: seq<Hit>, k: nat, r: Region)
    requires k <= |hits|
  {
    && r.role == APPROVED && r.cueKind == "locator" && r.start <= r.end && HitPage(hits, k, r.start)
    && forall q :: r.start <= q <= r.end ==> !d.Barred(q) || HitPage(hits, k, q)
  }

  ghost predicate AllGood(d: Document, hits: seq<Hit>, k: nat, rs: seq<Region>)
    requires k <= |hits|
  {
    rs == [] || (GoodCandidate(d, hits, k, rs[|rs| - 1]) && AllGood(d, hits, k, rs[..|rs| - 1]))
  }

  /** Between two candidates there is at least one page. */
  predicate Separated(rs: seq<Region>) {
    |rs| < 2 || (rs[|rs| - 2].end + 1 < rs[|rs| - 1].start && Separated(rs[..|rs| - 1]))
  }

  predicate InSome(rs: seq<Region>, q: int) { rs != [] && (Within(rs[|rs| - 1], q) || InSome(rs[..|rs| - 1], q)) }

  /** Each of the first k hits lies in some candidate. */
  predicate Covered(rs: seq<Region>, hits: seq<Hit>, k: nat)
    requires k <= |hits|
  {
    k == 0 || (InSome(rs, hits[k - 1].page) && Covered(rs, hits, k - 1))
  }

  lemma NewCandidateIsGood(d: Document, hits: seq<Hit>, k: nat)
    requires k < |hits|
    ensures GoodCandidate(d, hits, k + 1, NewCandidate(d, hits[k]))
  {
    var r := NewCandidate(d, hits[k]);
    SpanEndIsExact(d, hits[k].page);
    forall q | r.start <= q <= r.end ensures !d.Barred(q) || HitPage(hits, k + 1, q) {
      if q > r.start {
        if q <= d.Walk(r.start, r.start, r.start) {
          assert Passable(d, r.start, q);
        } else {
          assert Bare(d, q);
        }
      }
    }
  }

  lemma StillGood(d: Document, hits: seq<Hit>, k: nat, r: Region)
    requires k < |hits| && GoodCandidate(d, hits, k, r)
    ensures GoodCandidate(d, hits, k + 1, r)
  {
  }

  lemma {:induction false} AllStillGood(d: Document, hits: seq<Hit>, k: nat, rs: seq<Region>)
    requires k < |hits| && AllGood(d, hits, k, rs)
    ensures AllGood(d, hits, k + 1, rs)
  {
    if rs != [] {
      StillGood(d, hits, k, rs[|rs| - 1]);
      AllStillGood(d, hits, k, rs[..|rs| - 1]);
    }
  }

  lemma ExtendedIsGood(d: Document, hits: seq<Hit>, k: nat, r: Region)
    requires k < |hits| && GoodCandidate(d, hits, k, r) && r.start <= hits[k].page <= r.end + 1
    ensures GoodCandidate(d, hits, k + 1, r.(end := Max(r.end, hits[k].page)))
  {
  }

  lemma {:induction false} CoveredStays(front: seq<Region>, r: Region, s: Region, hits: seq<Hit>, k: nat)
    requires k <= |hits| && Covered(front + [r], hits, k) && s.start <= r.start && r.end <= s.end
    ensures Covered(front + [s], hits, k)
  {
    if k > 0 {
      CoveredStays(front, r, s, hits, k - 1);
      assert (front + [r])[..|front|] == front == (front + [s])[..|front|];
    }
  }

  lemma {:induction false} CoveredGrows(rs: seq<Region>, s: Region, hits: seq<Hit>, k: nat)
    requires k <= |hits| && Covered(rs, hits, k)
    ensures Covered(rs + [s], hits, k)
  {
    if k > 0 {
      CoveredGrows(rs, s, hits, k - 1);
      assert (rs + [s])[..|rs|] == rs;
    }
  }

  lemma {:induction false} SortedPair(hits: seq<Hit>, i: nat, j: nat)
    requires SortedHits(hits) && i <= j < |hits|
    ensures hits[i].page <= hits[j].page
    decreases |hits|
  {
    if j < |hits| - 1 {
      SortedPair(hits[..|hits| - 1], i, j);
    } else if i < j {
      SortedPair(hits[..|hits| - 1], i, j - 1);
    }
  }

  lemma {:induction false} HitPageBefore(hits: seq<Hit>, k: nat, q: int, j: nat)
    requires SortedHits(hits) && k <= j < |hits| && HitPage(hits, k, q)
    ensures q <= hits[j].page
    decreases k
  {
    if hits[k - 1].page == q {
      SortedPair(hits, k - 1, j);
    } else {
      HitPageBefore(hits, k - 1, q, j);
    }
  }

  ghost predicate Good(d: Document, hits: seq<Hit>, k: nat, rs: seq<Region>)
    requires k <= |hits|
  {
    AllGood(d, hits, k, rs) && Separated(rs) && Covered(rs, hits, k)
  }

  lemma LastExtended(d: Document, hits: seq<Hit>, k: nat, front: seq<Region>, r: Region)
    requires k < |hits| && Good(d, hits, k, front + [r]) && r.start <= hits[k].page <= r.end + 1
    ensures Good(d, hits, k + 1, front + [r.(end := Max(r.end, hits[k].page))])
  {
    var s := r.(end := Max(r.end, hits[k].page));
    var before, rs := front + [r], front + [s];
    assert before[..|front|] == front == rs[..|front|];
    AllStillGood(d, hits, k, front);
    ExtendedIsGood(d, hits, k, r);
    CoveredStays(front, r, s, hits, k);
    assert InSome(rs, hits[k].page);
  }

  lemma OneAdded(d: Document, hits: seq<Hit>, k: nat, before: seq<Region>)
    requires k < |hits| && SortedHits(hits) && Good(d, hits, k, before)
    requires before == [] || !(before[|before| - 1].start <= hits[k].page <= before[|before| - 1].end + 1)
    ensures Good(d, hits, k + 1, before + [NewCandidate(d, hits[k])])
  {
    var s := NewCandidate(d, hits[k]);
    var rs := before + [s];
    assert rs[..|before|] == before;
    AllStillGood(d, hits, k, before);
    NewCandidateIsGood(d, hits, k);
    CoveredGrows(before, s, hits, k);
    assert InSome(rs, hits[k].page);
    if before != [] { HitPageBefore(hits, k, before[|before| - 1].start, k); }
  }

  lemma ExtendsLast(d: Document, front: seq<Region>, r: Region, h: Hit)
    requires r.start <= h.page <= r.end + 1
    ensures AddHit(d, front + [r], h) == front + [r.(end := Max(r.end, h.page))]
  {
  }

  lemma AddHitIsGood(d: Document, hits: seq<Hit>, k: nat, before: seq<Region>)
    requires k < |hits| && SortedHits(hits) && Good(d, hits, k, before)
    ensures Good(d, hits, k + 1, AddHit(d, before, hits[k]))
  {
    var n, page := |before|, hits[k].page;
    if n > 0 && before[n - 1].start <= page <= before[n - 1].end + 1 {
      var front, r := before[..n - 1], before[n - 1];
      assert before == front + [r];
      ExtendsLast(d, front, r, hits[k]);
      LastExtended(d, hits, k, front, r);
    } else {
      OneAdded(d, hits, k, before);
    }
  }

  lemma {:induction false} CandidatesAreGood(d: Document, hits: seq<Hit>, k: nat)
    requires k <= |hits| && SortedHits(hits)
    ensures Good(d, hits, k, Candidates(d, hits, k))
  {
    if k > 0 {
      CandidatesAreGood(d, hits, k - 1);
      AddHitIsGood(d, hits, k - 1, Candidates(d, hits, k - 1));
    }
  }

  // the same, by index

  lemma {:induction false} GoodAt(d: Document, hits: seq<Hit>, k: nat, rs: seq<Region>, i: nat)
    requires k <= |hits| && AllGood(d, hits, k, rs) && i < |rs|
    ensures GoodCandidate(d, hits, k, rs[i])
    decreases |rs|
  {
    if i < |rs| - 1 { GoodAt(d, hits, k, rs[..|rs| - 1], i); }
  }

  lemma {:induction false} SeparatedAt(d: Document, hits: seq<Hit>, k: nat, rs: seq<Region>, i: nat, j: nat)
    requires k <= |hits| && AllGood(d, hits, k, rs) && Separated(rs) && i < j < |rs|
    ensures rs[i].end + 1 < rs[j].start
    decreases |rs|
  {
    if j < |rs| - 1 {
      SeparatedAt(d, hits, k, rs[..|rs| - 1], i, j);
    } else if i < j - 1 {
      SeparatedAt(d, hits, k, rs[..|rs| - 1], i, j - 1);
      GoodAt(d, hits, k, rs, j - 1);
    }
  }

  lemma {:induction false} InSomeAt(rs: seq<Region>, q: int) returns (i: nat)
    requires InSome(rs, q)
    ensures i < |rs| && Within(rs[i], q)
    decreases |rs|
  {
    if Within(rs[|rs| - 1], q) { i := |rs| - 1; } else { i := InSomeAt(rs[..|rs| - 1], q); }
  }

  lemma {:induction false} CoveredAt(rs: seq<Region>, hits: seq<Hit>, k: nat, m: nat)
    requires m < k <= |hits| && Covered(rs, hits, k)
    ensures InSome(rs, hits[m].page)
    decreases k
  {
    if m < k - 1 { CoveredAt(rs, hits, k - 1, m); }
  }

  /** A candidate starts at a hit; its other pages are hit pages, or exist and are neither stop pages
      nor images; the next candidate starts at least two pages after it ends. */
  lemma CandidateIsSound(d: Document, hits: seq<Hit>, i: nat, j: nat)
    requires SortedHits(hits) && i < |Candidates(d, hits, |hits|)|
    ensures var rs := Candidates(d, hits, |hits|);
      GoodCandidate(d, hits, |hits|, rs[i]) && (i < j < |rs| ==> rs[i].end + 1 < rs[j].start)
  {
    CandidatesAreGood(d, hits, |hits|);
    var rs := Candidates(d, hits, |hits|);
    GoodAt(d, hits, |hits|, rs, i);
    if i < j < |rs| { SeparatedAt(d, hits, |hits|, rs, i, j); }
  }

  /** Every hit lies in exactly one candidate. */
  lemma HitInExactlyOne(d: Document, hits: seq<Hit>, m: nat) returns (i: nat)
    requires SortedHits(hits) && m < |hits|
    ensures var rs := Candidates(d, hits, |hits|);
      i < |rs| && forall j :: 0 <= j < |rs| ==> (Within(rs[j], hits[m].page) <==> j == i)
  {
    CandidatesAreGood(d, hits, |hits|);
    var rs := Candidates(d, hits, |hits|);
    CoveredAt(rs, hits, |hits|, m);
    i := InSomeAt(rs, hits[m].page);
    forall j | 0 <= j < |rs| && Within(rs[j], hits[m].page) ensures j == i {
      if j < i { SeparatedAt(d, hits, |hits|, rs, j, i); }
      if i < j { SeparatedAt(d, hits, |hits|, rs, i, j); }
    }
  }

  // ------------------------------------------------------------------ stop pages and images inside a candidate

  /** No page of the candidate but its first is a stop page, an image or missing. */
  ghost predicate Unbarred(d: Document, r: Region) { forall q :: r.start < q <= r.end ==> !d.Barred(q) }

  ghost predicate AllUnbarred(d: Document, rs: seq<Region>) { forall i :: 0 <= i < |rs| ==> Unbarred(d, rs[i]) }

  /** No hit stands on a barred page directly after a page of a candidate. */
  ghost predicate NoneAbsorbed(d: Document, hits: seq<Hit>, rs: seq<Region>) {
    forall q :: HitPage(hits, |hits|, q) && d.Barred(q) ==> !InSome(rs, q - 1)
  }

  lemma {:induction false} HitPageAt(hits: seq<Hit>, k: nat, q: int) returns (m: nat)
    requires k <= |hits| && HitPage(hits, k, q)
    ensures m < k && hits[m].page == q
  {
    if hits[k - 1].page == q { m := k - 1; } else { m := HitPageAt(hits, k - 1, q); }
  }

  lemma {:induction false} InSomeOf(rs: seq<Region>, i: nat, q: int)
    requires i < |rs| && Within(rs[i], q)
    ensures InSome(rs, q)
    decreases |rs|
  {
    if i < |rs| - 1 { InSomeOf(rs[..|rs| - 1], i, q); }
  }

  /** A hit directly after a page of a candidate lies in the same candidate, and not on its first page. */
  lemma HitAfterPage(d: Document, hits: seq<Hit>, m: nat) returns (i: nat)
    requires SortedHits(hits) && m < |hits| && InSome(Candidates(d, hits, |hits|), hits[m].page - 1)
    ensures var rs := Candidates(d, hits, |hits|); i < |rs| && rs[i].start < hits[m].page <= rs[i].end
  {
    var rs, q := Candidates(d, hits, |hits|), hits[m].page;
    i := InSomeAt(rs, q - 1);
    var j := HitInExactlyOne(d, hits, m);
    if i < j { CandidateIsSound(d, hits, i, j); }
    if j < i { CandidateIsSound(d, hits, j, i); }
  }

  /** A hit on a barred page directly after a page of a candidate breaks into one. */
  lemma BreaksIn(d: Document, hits: seq<Hit>, q: int) returns (i: nat)
    requires SortedHits(hits) && HitPage(hits, |hits|, q) && d.Barred(q)
    requires InSome(Candidates(d, hits, |hits|), q - 1)
    ensures i < |Candidates(d, hits, |hits|)| && !Unbarred(d, Candidates(d, hits, |hits|)[i])
  {
    var m := HitPageAt(hits, |hits|, q);
    i := HitAfterPage(d, hits, m);
  }

  lemma OneUnbarred(d: Document, hits: seq<Hit>, i: nat)
    requires SortedHits(hits) && i < |Candidates(d, hits, |hits|)|
    requires NoneAbsorbed(d, hits, Candidates(d, hits, |hits|))
    ensures Unbarred(d, Candidates(d, hits, |hits|)[i])
  {
    var rs := Candidates(d, hits, |hits|);
    CandidateIsSound(d, hits, i, i);
    forall q | rs[i].start < q <= rs[i].end ensures !d.Barred(q) { InSomeOf(rs, i, q - 1); }
  }

  lemma AbsorbedExactly(d: Document, hits: seq<Hit>)
    requires SortedHits(hits)
    ensures var rs := Candidates(d, hits, |hits|); AllUnbarred(d, rs) <==> NoneAbsorbed(d, hits, rs)
  {
    var rs := Candidates(d, hits, |hits|);
    if AllUnbarred(d, rs) {
      forall q | HitPage(hits, |hits|, q) && d.Barred(q) ensures !InSome(rs, q - 1) {
        if InSome(rs, q - 1) { var i := BreaksIn(d, hits, q); }
      }
    }
    if NoneAbsorbed(d, hits, rs) {
      forall i | 0 <= i < |rs| ensures Unbarred(d, rs[i]) { OneUnbarred(d, hits, i); }
    }
  }

  // the same, on the hits alone

  /** Every hit page is known to the walk, and no page lies beyond the last one. */
  ghost predicate Walkable(d: Document, hits: seq<Hit>) {
    && (forall k :: 0 <= k < |hits| ==> hits[k].page in d.spans)
    && (forall q :: q in d.byIndex ==> q <= d.last)
  }

  /** Where the walk from the latest of the first k hits that opens a span ends.  A hit opens one unless it lies in
      the span before it or directly after. */
  function OpenEnd(d: Document, hits: seq<Hit>, k: nat): Option<int>
    requires k <= |hits|
  {
    if k == 0 then None
    else
      var end := OpenEnd(d, hits, k - 1);
      if end.Some? && hits[k - 1].page <= end.value + 1 then end else Some(d.SpanEnd(hits[k - 1].page))
  }

  /** Hit k stands on a barred page directly after a span. */
  predicate FollowsBarred(d: Document, hits: seq<Hit>, k: nat)
    requires k < |hits|
  {
    var end := OpenEnd(d, hits, k);
    end.Some? && hits[k].page == end.value + 1 && d.Barred(hits[k].page)
  }

  /** None of the first k hits does. */
  predicate NoneFollows(d: Document, hits: seq<Hit>, k: nat)
    requires k <= |hits|
  {
    k == 0 || (!FollowsBarred(d, hits, k - 1) && NoneFollows(d, hits, k - 1))
  }

  /** The walk takes in a marked page that directly follows what it reaches, unless that page is barred. */
  lemma NextIsBarred(d: Document, hit: int, q: int)
    requires q == d.SpanEnd(hit) + 1 && d.Marked(q) && q <= d.last
    ensures d.Barred(q)
  {
    SpanEndIsExact(d, hit);
    if !d.Barred(q) {
      forall n | hit < n <= q ensures Passable(d, hit, n) {
        if n > d.Walk(hit, hit, hit) && n < q { assert Bare(d, n); }
      }
    }
  }

  /** The last candidate is as the walk from its first page left it. */
  ghost predicate AsWalked(d: Document, rs: seq<Region>, end: Option<int>) {
    if end.None? then rs == []
    else rs != [] && rs[|rs| - 1].end == end.value == d.SpanEnd(rs[|rs| - 1].start)
  }

  lemma LastStart(d: Document, hits: seq<Hit>, k: nat)
    requires k < |hits| && SortedHits(hits) && Candidates(d, hits, k) != []
    ensures var rs := Candidates(d, hits, k);
      rs[|rs| - 1].start <= hits[k].page && rs[|rs| - 1].start <= rs[|rs| - 1].end
  {
    var rs := Candidates(d, hits, k);
    CandidatesAreGood(d, hits, k);
    HitPageBefore(hits, k, rs[|rs| - 1].start, k);
  }

  lemma NewUnbarred(d: Document, h: Hit)
    ensures Unbarred(d, NewCandidate(d, h))
  {
    var r := NewCandidate(d, h);
    SpanEndIsExact(d, h.page);
    forall q | r.start < q <= r.end ensures !d.Barred(q) {
      if q <= d.Walk(h.page, h.page, h.page) { assert Passable(d, h.page, q); } else { assert Bare(d, q); }
    }
  }

  /** As long as no hit on a barred page directly follows a span, candidates stay as they were walked. */
  lemma StepAsWalked(d: Document, hits: seq<Hit>, k: nat, before: seq<Region>)
    requires k < |hits| && SortedHits(hits) && Walkable(d, hits) && before == Candidates(d, hits, k)
    requires AsWalked(d, before, OpenEnd(d, hits, k)) && AllUnbarred(d, before) && !FollowsBarred(d, hits, k)
    ensures AsWalked(d, AddHit(d, before, hits[k]), OpenEnd(d, hits, k + 1))
    ensures AllUnbarred(d, AddHit(d, before, hits[k]))
  {
    var n, page := |before|, hits[k].page;
    NewUnbarred(d, hits[k]);
    if n > 0 {
      LastStart(d, hits, k);
      if page == before[n - 1].end + 1 && !d.Barred(page) { NextIsBarred(d, before[n - 1].start, page); }
      if page <= before[n - 1].end { assert before[n - 1].(end := Max(before[n - 1].end, page)) == before[n - 1]; }
    }
  }

  lemma {:induction false} NoneFollowsKeepsOut(d: Document, hits: seq<Hit>, k: nat)
    requires k <= |hits| && SortedHits(hits) && Walkable(d, hits) && NoneFollows(d, hits, k)
    ensures AsWalked(d, Candidates(d, hits, k), OpenEnd(d, hits, k)) && AllUnbarred(d, Candidates(d, hits, k))
  {
    if k > 0 {
      NoneFollowsKeepsOut(d, hits, k - 1);
      StepAsWalked(d, hits, k - 1, Candidates(d, hits, k - 1));
    }
  }

  lemma AddHitKeeps(d: Document, done: seq<Region>, h: Hit, q: int)
    requires InSome(done, q)
    ensures InSome(AddHit(d, done, h), q)
  {
    var next := AddHit(d, done, h);
    if |next| == |done| {
      assert next[..|done| - 1] == done[..|done| - 1];
    } else {
      assert next[..|done|] == done;
    }
  }

  /** A page of a candidate stays one. */
  lemma {:induction false} CandidatesKeep(d: Document, hits: seq<Hit>, k: nat, n: nat, q: int)
    requires k <= n <= |hits| && InSome(Candidates(d, hits, k), q)
    ensures InSome(Candidates(d, hits, n), q)
    decreases n
  {
    if k < n {
      CandidatesKeep(d, hits, k, n - 1, q);
      AddHitKeeps(d, Candidates(d, hits, n - 1), hits[n - 1], q);
    }
  }

  lemma {:induction false} HitPageOf(hits: seq<Hit>, k: nat, m: nat)
    requires m < k <= |hits|
    ensures HitPage(hits, k, hits[m].page)
  {
    if m < k - 1 { HitPageOf(hits, k - 1, m); }
  }

  /** A hit that directly follows a span directly follows a page of a candidate in the end. */
  lemma NotFollowed(d: Document, hits: seq<Hit>, k: nat)
    requires k < |hits| && SortedHits(hits) && AsWalked(d, Candidates(d, hits, k), OpenEnd(d, hits, k))
    requires NoneAbsorbed(d, hits, Candidates(d, hits, |hits|))
    ensures !FollowsBarred(d, hits, k)
  {
    if FollowsBarred(d, hits, k) {
      LastStart(d, hits, k);
      HitPageOf(hits, |hits|, k);
      CandidatesKeep(d, hits, k, |hits|, hits[k].page - 1);
    }
  }

  lemma {:induction false} AbsorbedFollows(d: Document, hits: seq<Hit>, k: nat)
    requires k <= |hits| && SortedHits(hits) && Walkable(d, hits)
    requires NoneAbsorbed(d, hits, Candidates(d, hits, |hits|))
    ensures NoneFollows(d, hits, k)
  {
    if k > 0 {
      AbsorbedFollows(d, hits, k - 1);
      NoneFollowsKeepsOut(d, hits, k - 1);
      NotFollowed(d, hits, k - 1);
    }
  }

  /** A span ends before the first stop page or image, but a hit there is taken in all the same when it directly
      follows the span.  Every candidate keeps such pages out, its first page aside, exactly when no hit stands on
      one directly after the span that the walk from an opening hit reaches. */
  lemma StopsKeptOut(d: Document, hits: seq<Hit>)
    requires SortedHits(hits) && Walkable(d, hits)
    ensures AllUnbarred(d, Candidates(d, hits, |hits|)) <==> NoneFollows(d, hits, |hits|)
  {
    AbsorbedExactly(d, hits);
    if AllUnbarred(d, Candidates(d, hits, |hits|)) { AbsorbedFollows(d, hits, |hits|); }
    if NoneFollows(d, hits, |hits|) { NoneFollowsKeepsOut(d, hits, |hits|); }
  }

  // ------------------------------------------------------------------ the whole document

  const STOP_ROLES := {"derived_not_tariff", "illustrative", "amendment_diff", "approved_summary"}
  const EXCLUSIVE := {"existing_tariff", "proposed_tariff", "illustrative", "derived_not_tariff", "amendment_diff"}

  function HitsOn(cues: seq<(Cue, string)>, page: int): seq<Hit> {
    if cues == [] then [] else [Hit(cues[0].0, page, cues[0].1)] + HitsOn(cues[1..], page)
  }

  function HitsOf(profile: Profile, pages: seq<PageInfo>): seq<Hit> {
    if pages == [] then [] else HitsOn(profile.cuesOn(pages[0]), pages[0].index) + HitsOf(profile, pages[1..])
  }

  predicate IsSpanHit(h: Hit) { h.cue.role == APPROVED && h.cue.scope == "span" }

  /** The span hits, or all the others. */
  function Chosen(hits: seq<Hit>, span: bool): seq<Hit> {
    if hits == [] then []
    else (if IsSpanHit(hits[0]) == span then [hits[0]] else []) + Chosen(hits[1..], span)
  }

  function StopPages(hits: seq<Hit>): set<int> {
    if hits == [] then {} else (if hits[0].cue.role in STOP_ROLES then {hits[0].page} else {}) + StopPages(hits[1..])
  }

  function OrEmpty(t: Option<string>): string { if t.Some? then t.value else "" }

  /** By role, sub-role and page. */
  predicate HitKeyLe(a: Hit, b: Hit) {
    var (s, t) := (OrEmpty(a.cue.subRole), OrEmpty(b.cue.subRole));
    if a.cue.role != b.cue.role then TextLe(a.cue.role, b.cue.role)
    else if s != t then TextLe(s, t) else a.page <= b.page
  }

  predicate RegionLe(a: Region, b: Region) { if a.start != b.start then a.start < b.start else TextLe(a.role, b.role) }

  function FindPage(pages: seq<PageInfo>, q: int): Option<PageInfo> {
    if pages == [] then None else if pages[0].index == q then Some(pages[0]) else FindPage(pages[1..], q)
  }

  /** Regions and findings so far. */
  datatype Found = Found(regions: seq<Region>, findings: seq<Finding>)

  predicate Joins(prev: Region, h: Hit, utility: Option<string>) {
    prev.role == h.cue.role && prev.subRole == h.cue.subRole && prev.end + 1 == h.page && prev.utility == utility
  }

  function HitRegion(h: Hit, utility: Option<string>, period: Option<string>): Region {
    Region(h.cue.role, h.cue.subRole, h.page, h.page, h.line, h.page, "locator", utility, period, h.cue.note)
  }

  /** The hit extends the last region, or opens one. */
  function PlaceHit(rs: seq<Region>, h: Hit, utility: Option<string>, period: Option<string>): seq<Region> {
    var n := |rs|;
    if n > 0 && Joins(rs[n - 1], h, utility) then rs[n - 1 := rs[n - 1].(end := h.page)]
      else rs + [HitRegion(h, utility, period)]
  }

  /** One hit of another role: kept out of the approved span, joined to the region before it, or a
      region of its own. */
  function AddPageHit(profile: Profile, pages: seq<PageInfo>, approved: seq<Region>, f: Found, h: Hit): Found {
    if InSome(approved, h.page) && h.cue.role in EXCLUSIVE then
      if h.cue.role in {"proposed_tariff", "existing_tariff"}
      then Found(f.regions, f.findings
        + [Finding("existing_or_proposed_cue_inside_approved_region", Warning, [h.page])])
      else f
    else
      var info := FindPage(pages, h.page);
      var utility := if info.Some? then profile.utilityOn(info.value) else None;
      var period := if info.Some? then profile.periodOn(info.value) else None;
      Found(PlaceHit(f.regions, h, utility, period), f.findings)
  }

  function AddPageHits(profile: Profile, pages: seq<PageInfo>, approved: seq<Region>, f: Found, hits: seq<Hit>): Found
    decreases |hits|
  {
    if hits == [] then f
    else AddPageHits(profile, pages, approved, AddPageHit(profile, pages, approved, f, hits[0]), hits[1..])
  }

  function ImageRun(start: int, end: int): Region {
    Region("other", None, start, end, "page class image_only", start, "page_class", None, None,
           Some("scanned material: OCR'd for search, never part of the schedule"))
  }

  predicate IsImage(approved: seq<Region>, p: PageInfo) { p.pageClass == IMAGE_ONLY && !InSome(approved, p.index) }

  /** The image-only runs from page i on; `run` is where a run is open. */
  function ImageRuns(approved: seq<Region>, pages: seq<PageInfo>, i: nat, run: Option<int>): seq<Region>
    requires i <= |pages|
    decreases |pages| - i
  {
    if i == |pages| then (if run.Some? && pages != [] then [ImageRun(run.value, pages[i - 1].index)] else [])
    else if IsImage(approved, pages[i]) then
      ImageRuns(approved, pages, i + 1, if run.Some? then run else Some(pages[i].index))
    else (if run.Some? then [ImageRun(run.value, pages[i].index - 1)] else []) + ImageRuns(approved, pages, i + 1, None)
  }

  function CodesOn(headings: seq<(string, Option<string>)>, kind: string): set<string> {
    if headings == [] then {}
    else
      (if headings[0].0 == kind && headings[0].1.Some? && headings[0].1.value != "" then {headings[0].1.value} else {})
      + CodesOn(headings[1..], kind)
  }

  function CodesSeen(pages: seq<PageInfo>, kind: string): set<string> {
    if pages == [] then {} else CodesOn(pages[0].headings, kind) + CodesSeen(pages[1..], kind)
  }

  predicate HasRole(regions: seq<Region>, role: string)
  {
    regions != [] && (regions[0].role == role || HasRole(regions[1..], role))
  }

  /** What the profile expected of the document. */
  function Expectations(profile: Profile, pages: seq<PageInfo>, regions: seq<Region>): seq<Finding> {
    var codes := CodesSeen(pages, profile.scheduleKind);
    (if profile.expectedHeadings.Some? && |codes| != profile.expectedHeadings.value
     then [Finding("inventory_expectation_mismatch", Warning, [])] else [])
    + (if codes * profile.absentCodes != {} then [Finding("unexpected_code_found", Blocking, [])] else [])
    + (if profile.secondaryAuthoritative && !HasRole(regions, "approved_summary")
       then [Finding("secondary_representation_not_found", Warning, [])] else [])
    + (if !HasRole(regions, "proposed_tariff") then [Finding("proposed_tariff_absent", Info, [])] else [])
  }

  predicate AnyBlocking(findings: seq<Finding>)
  {
    findings != [] && (findings[0].severity == Blocking || AnyBlocking(findings[1..]))
  }

  function Localise(profile: Profile, given: seq<PageInfo>): Answer {
    var pages := Sort(given, PageLe);
    var hits := HitsOf(profile, pages);
    var spanHits, pageHits := Chosen(hits, true), Chosen(hits, false);
    var d := DocumentOf(profile, pages, spanHits, StopPages(pageHits));
    var sorted := Sort(spanHits, HitLe);
    var approved := Candidates(d, sorted, |sorted|);
    var f := AddPageHits(profile, pages, approved, Found(approved, SpanFindings(d, approved)),
      Sort(pageHits, HitKeyLe));
    var regions := f.regions + ImageRuns(approved, pages, 0, None);
    var findings := f.findings + Expectations(profile, pages, regions);
    Answer(if AnyBlocking(findings) then AmbiguousSpan else Proposed, Sort(regions, RegionLe), findings)
  }

  /** The image-only runs, page by page, with one step past the last page. */
  method FindImageRuns(approved: seq<Region>, pages: seq<PageInfo>) returns (runs: seq<Region>)
    ensures runs == ImageRuns(approved, pages, 0, None)
  {
    runs := [];
    var run: Option<int> := None;
    for i := 0 to |pages|
      invariant runs + ImageRuns(approved, pages, i, run) == ImageRuns(approved, pages, 0, None)
    {
      if IsImage(approved, pages[i]) {
        run := if run.Some? then run else Some(pages[i].index);
      } else {
        var closed := if run.Some? then [ImageRun(run.value, pages[i].index - 1)] else [];
        Assoc(runs, closed, ImageRuns(approved, pages, i + 1, None));
        runs, run := runs + closed, None;
      }
    }
    if run.Some? && pages != [] { runs := runs + [ImageRun(run.value, pages[|pages| - 1].index)]; }
  }

  method LocaliseDocument(profile: Profile, given: seq<PageInfo>) returns (answer: Answer)
    ensures answer == Localise(profile, given)
  {
    var pages := Sort(given, PageLe);
    var hits := HitsOf(profile, pages);
    var spanHits, pageHits := Chosen(hits, true), Sort(Chosen(hits, false), HitKeyLe);
    var approved, findings := ApprovedSpan(profile, pages, spanHits, StopPages(Chosen(hits, false)));
    var f := Found(approved, findings);
    for k := 0 to |pageHits|
      invariant AddPageHits(profile, pages, approved, f, pageHits[k..])
             == AddPageHits(profile, pages, approved, Found(approved, findings), pageHits)
    {
      assert pageHits[k..][0] == pageHits[k] && pageHits[k..][1..] == pageHits[k + 1..];
      f := AddPageHit(profile, pages, approved, f, pageHits[k]);
    }
    var runs := FindImageRuns(approved, pages);
    var regions := f.regions + runs;
    findings := f.findings + Expectations(profile, pages, regions);
    answer := Answer(if AnyBlocking(findings) then AmbiguousSpan else Proposed, Sort(regions, RegionLe), findings);
  }

  // ------------------------------------------------------------------ pages, in order

  predicate HasIndex(pages: seq<PageInfo>, q: int) { pages != [] && (pages[0].index == q || HasIndex(pages[1..], q)) }

  /** No page is given twice. */
  ghost predicate DistinctPages(pages: seq<PageInfo>) {
    forall i, j :: 0 <= i < j < |pages| ==> pages[i].index != pages[j].index
  }

  predicate Rising(pages: seq<PageInfo>) { |pages| < 2 || (pages[0].index < pages[1].index && Rising(pages[1..])) }

  lemma {:induction false} InsertIndex(p: PageInfo, pages: seq<PageInfo>, q: int)
    ensures HasIndex(Insert(p, pages, PageLe), q) <==> p.index == q || HasIndex(pages, q)
  {
    if pages != [] && !PageLe(p, pages[0]) {
      InsertIndex(p, pages[1..], q);
      assert Insert(p, pages, PageLe)[1..] == Insert(p, pages[1..], PageLe);
    } else {
      assert Insert(p, pages, PageLe)[1..] == pages;
    }
  }

  lemma {:induction false} InsertRising(p: PageInfo, pages: seq<PageInfo>)
    requires Rising(pages) && !HasIndex(pages, p.index)
    ensures Rising(Insert(p, pages, PageLe))
  {
    if pages != [] && !PageLe(p, pages[0]) {
      InsertRising(p, pages[1..]);
      assert Insert(p, pages, PageLe)[1..] == Insert(p, pages[1..], PageLe);
    } else {
      assert Insert(p, pages, PageLe)[1..] == pages;
    }
  }

  lemma {:induction false} NotAgain(pages: seq<PageInfo>, q: int)
    requires forall j :: 0 <= j < |pages| ==> pages[j].index != q
    ensures !HasIndex(pages, q)
  {
    if pages != [] {
      assert forall j :: 0 <= j < |pages[1..]| ==> pages[1..][j] == pages[j + 1];
      NotAgain(pages[1..], q);
    }
  }

  lemma {:induction false} SortedIndex(pages: seq<PageInfo>, q: int)
    ensures HasIndex(Sort(pages, PageLe), q) <==> HasIndex(pages, q)
  {
    if pages != [] {
      SortedIndex(pages[1..], q);
      InsertIndex(pages[0], Sort(pages[1..], PageLe), q);
    }
  }

  lemma {:induction false} SortedRises(pages: seq<PageInfo>)
    requires DistinctPages(pages)
    ensures Rising(Sort(pages, PageLe))
  {
    if pages != [] {
      assert forall j :: 0 <= j < |pages[1..]| ==> pages[1..][j] == pages[j + 1];
      SortedRises(pages[1..]);
      NotAgain(pages[1..], pages[0].index);
      SortedIndex(pages[1..], pages[0].index);
      InsertRising(pages[0], Sort(pages[1..], PageLe));
    }
  }

  lemma {:induction false} RisingPair(pages: seq<PageInfo>, i: nat, j: nat)
    requires Rising(pages) && i < j < |pages|
    ensures pages[i].index < pages[j].index
    decreases j
  {
    if i > 0 {
      RisingPair(pages[1..], i - 1, j - 1);
    } else if j > 1 {
      RisingPair(pages[1..], 0, j - 1);
    }
  }

  lemma {:induction false} IndexAt(pages: seq<PageInfo>, q: int) returns (k: nat)
    requires HasIndex(pages, q)
    ensures k < |pages| && pages[k].index == q
  {
    if pages[0].index == q {
      k := 0;
    } else {
      var j := IndexAt(pages[1..], q);
      k := j + 1;
    }
  }

  lemma {:induction false} AtIndex(pages: seq<PageInfo>, k: nat)
    requires k < |pages|
    ensures HasIndex(pages, pages[k].index)
    decreases k
  {
    if k > 0 { AtIndex(pages[1..], k - 1); }
  }

  lemma {:induction false} MappedExists(pages: seq<PageInfo>, q: int)
    requires q in IndexOf(pages)
    ensures HasIndex(pages, q)
  {
    var n := |pages|;
    if pages[n - 1].index == q {
      AtIndex(pages, n - 1);
    } else {
      MappedExists(pages[..n - 1], q);
      var k := IndexAt(pages[..n - 1], q);
      AtIndex(pages, k);
    }
  }

  // ------------------------------------------------------------------ hits come from pages

  /** Every hit's page exists. */
  predicate OnPages(hits: seq<Hit>, pages: seq<PageInfo>)
  {
    hits == [] || (HasIndex(pages, hits[0].page) && OnPages(hits[1..], pages))
  }

  /** No hit of the approved role but the span hits. */
  predicate OtherRoles(hits: seq<Hit>) { hits == [] || (hits[0].cue.role != APPROVED && OtherRoles(hits[1..])) }

  /** Cues of the approved role have span scope. */
  predicate SpanCues(cues: seq<(Cue, string)>) {
    cues == [] || ((cues[0].0.role == APPROVED ==> cues[0].0.scope == "span") && SpanCues(cues[1..]))
  }

  /** No page has a cue of the approved role with page scope. */
  ghost predicate SpanOnly(profile: Profile, pages: seq<PageInfo>) {
    forall p :: p in pages ==> SpanCues(profile.cuesOn(p))
  }

  predicate SpanRoles(hits: seq<Hit>)
  {
    hits == [] || ((hits[0].cue.role == APPROVED ==> IsSpanHit(hits[0])) && SpanRoles(hits[1..]))
  }

  lemma {:induction false} OnPageSpan(cues: seq<(Cue, string)>, page: int, rest: seq<Hit>)
    ensures SpanRoles(HitsOn(cues, page) + rest) <==> SpanCues(cues) && SpanRoles(rest)
  {
    if cues != [] {
      OnPageSpan(cues[1..], page, rest);
      assert (HitsOn(cues, page) + rest)[1..] == HitsOn(cues[1..], page) + rest;
    } else {
      assert HitsOn(cues, page) + rest == rest;
    }
  }

  lemma {:induction false} HitsSpan(profile: Profile, pages: seq<PageInfo>)
    ensures SpanRoles(HitsOf(profile, pages)) <==> SpanOnly(profile, pages)
  {
    if pages != [] {
      HitsSpan(profile, pages[1..]);
      assert pages == [pages[0]] + pages[1..];
      OnPageSpan(profile.cuesOn(pages[0]), pages[0].index, HitsOf(profile, pages[1..]));
    }
  }

  lemma {:induction false} OthersAreOther(hits: seq<Hit>)
    ensures OtherRoles(Chosen(hits, false)) <==> SpanRoles(hits)
  {
    if hits != [] {
      OthersAreOther(hits[1..]);
      var rest := Chosen(hits[1..], false);
      assert ([hits[0]] + rest)[1..] == rest && [] + rest == rest;
    }
  }

  lemma {:induction false} InsertOther(h: Hit, hits: seq<Hit>)
    ensures OtherRoles(Insert(h, hits, HitKeyLe)) <==> h.cue.role != APPROVED && OtherRoles(hits)
  {
    if hits != [] && !HitKeyLe(h, hits[0]) {
      InsertOther(h, hits[1..]);
      assert Insert(h, hits, HitKeyLe)[1..] == Insert(h, hits[1..], HitKeyLe);
    } else {
      assert Insert(h, hits, HitKeyLe)[1..] == hits;
    }
  }

  lemma {:induction false} SortOther(hits: seq<Hit>)
    ensures OtherRoles(Sort(hits, HitKeyLe)) <==> OtherRoles(hits)
  {
    if hits != [] {
      SortOther(hits[1..]);
      InsertOther(hits[0], Sort(hits[1..], HitKeyLe));
    }
  }

  lemma {:induction false} OnPageExists(cues: seq<(Cue, string)>, page: int, rest: seq<Hit>, all: seq<PageInfo>)
    requires HasIndex(all, page) && OnPages(rest, all)
    ensures OnPages(HitsOn(cues, page) + rest, all)
  {
    if cues != [] {
      OnPageExists(cues[1..], page, rest, all);
      assert (HitsOn(cues, page) + rest)[1..] == HitsOn(cues[1..], page) + rest;
    } else {
      assert HitsOn(cues, page) + rest == rest;
    }
  }

  lemma {:induction false} HitsExist(profile: Profile, all: seq<PageInfo>, i: nat)
    requires i <= |all|
    ensures OnPages(HitsOf(profile, all[i..]), all)
    decreases |all| - i
  {
    if i < |all| {
      HitsExist(profile, all, i + 1);
      AtIndex(all, i);
      assert all[i..][1..] == all[i + 1..];
      OnPageExists(profile.cuesOn(all[i]), all[i].index, HitsOf(profile, all[i + 1..]), all);
    }
  }

  lemma {:induction false} ChosenExist(hits: seq<Hit>, span: bool, pages: seq<PageInfo>)
    requires OnPages(hits, pages)
    ensures OnPages(Chosen(hits, span), pages)
  {
    if hits != [] {
      ChosenExist(hits[1..], span, pages);
      var rest := Chosen(hits[1..], span);
      assert ([hits[0]] + rest)[1..] == rest && [] + rest == rest;
    }
  }

  lemma {:induction false} InsertExists(h: Hit, hits: seq<Hit>, pages: seq<PageInfo>)
    requires OnPages(hits, pages) && HasIndex(pages, h.page)
    ensures OnPages(Insert(h, hits, HitLe), pages)
  {
    if hits != [] && !HitLe(h, hits[0]) {
      InsertExists(h, hits[1..], pages);
      assert Insert(h, hits, HitLe)[1..] == Insert(h, hits[1..], HitLe);
    } else {
      assert Insert(h, hits, HitLe)[1..] == hits;
    }
  }

  lemma {:induction false} SortExists(hits: seq<Hit>, pages: seq<PageInfo>)
    requires OnPages(hits, pages)
    ensures OnPages(Sort(hits, HitLe), pages)
  {
    if hits != [] {
      SortExists(hits[1..], pages);
      InsertExists(hits[0], Sort(hits[1..], HitLe), pages);
    }
  }

  lemma {:induction false} OnPagesAt(hits: seq<Hit>, pages: seq<PageInfo>, k: nat)
    requires OnPages(hits, pages) && k < |hits|
    ensures HasIndex(pages, hits[k].page)
    decreases k
  {
    if k > 0 { OnPagesAt(hits[1..], pages, k - 1); }
  }

  lemma {:induction false} HitPageExists(hits: seq<Hit>, pages: seq<PageInfo>, k: nat, q: int)
    requires OnPages(hits, pages) && k <= |hits| && HitPage(hits, k, q)
    ensures HasIndex(pages, q)
    decreases k
  {
    if hits[k - 1].page == q { OnPagesAt(hits, pages, k - 1); } else { HitPageExists(hits, pages, k - 1, q); }
  }

  // ------------------------------------------------------------------ hits in order

  lemma {:induction false} SortedPrefix(hits: seq<Hit>)
    requires Sorted(hits, HitLe) && hits != []
    ensures Sorted(hits[..|hits| - 1], HitLe) && (|hits| > 1 ==> hits[|hits| - 2].page <= hits[|hits| - 1].page)
  {
    if |hits| > 2 {
      SortedPrefix(hits[1..]);
      assert hits[..|hits| - 1][1..] == hits[1..][..|hits| - 2];
    }
  }

  lemma {:induction false} SortedFromBack(hits: seq<Hit>)
    requires Sorted(hits, HitLe)
    ensures SortedHits(hits)
    decreases |hits|
  {
    if |hits| >= 2 {
      SortedPrefix(hits);
      SortedFromBack(hits[..|hits| - 1]);
    }
  }

  lemma HitsAreSorted(hits: seq<Hit>)
    ensures SortedHits(Sort(hits, HitLe))
  {
    SortSorted(hits, HitLe);
    SortedFromBack(Sort(hits, HitLe));
  }

  // ------------------------------------------------------------------ a proposed answer

  /** The two regions share no page. */
  ghost predicate Disjoint(a: Region, r: Region) { forall q :: Within(r, q) ==> !Within(a, q) }

  /** r comes from a hit, and when its role is exclusive it keeps off the approved region. */
  ghost predicate AwayHit(a: Region, r: Region) {
    r.cueKind == "locator" && (r.role in EXCLUSIVE ==> Disjoint(a, r))
  }

  ghost predicate AllAway(a: Region, rs: seq<Region>) {
    rs == [] || (AwayHit(a, rs[|rs| - 1]) && AllAway(a, rs[..|rs| - 1]))
  }

  lemma JoinedAway(a: Region, prev: Region, h: Hit)
    requires AwayHit(a, prev) && prev.role == h.cue.role && prev.end + 1 == h.page
    requires h.cue.role in EXCLUSIVE ==> !Within(a, h.page)
    ensures AwayHit(a, prev.(end := h.page))
  {
    var r := prev.(end := h.page);
    forall q | r.role in EXCLUSIVE && Within(r, q) ensures !Within(a, q) {
      if q != h.page { assert Within(prev, q); }
    }
  }

  /** No region of the approved role. */
  ghost predicate NoneIs(rs: seq<Region>) { forall k :: 0 <= k < |rs| ==> rs[k].role != APPROVED }

  /** The walked region, or what hits of its own role on the pages after it made of it. */
  ghost predicate Grown(a: Region, b: Region) {
    b.role == APPROVED && b.cueKind == "locator" && (b == a || b.end > a.end)
  }

  lemma JoinLast(a: Region, b: Region, rest: seq<Region>, h: Hit) returns (more: seq<Region>)
    requires AllAway(a, rest) && rest != [] && rest[|rest| - 1].role == h.cue.role && rest[|rest| - 1].end + 1 == h.page
    requires h.cue.role in EXCLUSIVE ==> !Within(a, h.page)
    ensures AllAway(a, more) && (NoneIs(more) <==> NoneIs(rest))
    ensures var all := [b] + rest; all[|all| - 1 := all[|all| - 1].(end := h.page)] == [b] + more
  {
    var n := |rest|;
    JoinedAway(a, rest[n - 1], h);
    more := rest[..n - 1] + [rest[n - 1].(end := h.page)];
    assert more[..n - 1] == rest[..n - 1];
    assert forall k :: 0 <= k < n ==> more[k].role == rest[k].role;
  }

  lemma AppendAway(a: Region, b: Region, rest: seq<Region>, r: Region)
    requires AllAway(a, rest) && AwayHit(a, r)
    ensures AllAway(a, rest + [r]) && ([b] + rest) + [r] == [b] + (rest + [r])
    ensures NoneIs(rest + [r]) <==> NoneIs(rest) && r.role != APPROVED
  {
    assert (rest + [r])[..|rest|] == rest && (rest + [r])[|rest|] == r;
    assert forall k :: 0 <= k < |rest| ==> (rest + [r])[k] == rest[k];
  }

  /** The regions so far: the walked one, possibly grown, and regions from hits. */
  ghost predicate Kept(a: Region, b: Region, rest: seq<Region>) { Grown(a, b) && AllAway(a, rest) }

  /** The walked region as it was, and no other approved one. */
  ghost predicate Alone(a: Region, b: Region, rest: seq<Region>) { b == a && NoneIs(rest) }

  lemma PlaceHitAway(a: Region, b: Region, rest: seq<Region>, h: Hit, utility: Option<string>,
        period: Option<string>)
    returns (c: Region, more: seq<Region>)
    requires Kept(a, b, rest) && (h.cue.role in EXCLUSIVE ==> !Within(a, h.page))
    ensures Kept(a, c, more) && (Alone(a, c, more) <==> Alone(a, b, rest) && h.cue.role != APPROVED)
    ensures PlaceHit([b] + rest, h, utility, period) == [c] + more
  {
    c, more := b, rest;
    if rest != [] && Joins(rest[|rest| - 1], h, utility) {
      more := JoinLast(a, b, rest, h);
    } else if rest == [] && Joins(b, h, utility) {
      c := b.(end := h.page);
    } else {
      AppendAway(a, b, rest, HitRegion(h, utility, period));
      more := rest + [HitRegion(h, utility, period)];
    }
  }

  lemma AddPageHitAway(profile: Profile, pages: seq<PageInfo>, a: Region, b: Region, rest: seq<Region>,
        findings: seq<Finding>, h: Hit)
    returns (c: Region, more: seq<Region>)
    requires Kept(a, b, rest)
    ensures Kept(a, c, more) && (Alone(a, c, more) <==> Alone(a, b, rest) && h.cue.role != APPROVED)
    ensures AddPageHit(profile, pages, [a], Found([b] + rest, findings), h).regions == [c] + more
  {
    assert InSome([a], h.page) == Within(a, h.page) by { assert [a][..0] == []; }
    var info := FindPage(pages, h.page);
    var utility := if info.Some? then profile.utilityOn(info.value) else None;
    var period := if info.Some? then profile.periodOn(info.value) else None;
    if Within(a, h.page) && h.cue.role in EXCLUSIVE {
      c, more := b, rest;
    } else {
      c, more := PlaceHitAway(a, b, rest, h, utility, period);
    }
  }

  lemma {:induction false} AddPageHitsAway(profile: Profile, pages: seq<PageInfo>, a: Region, b: Region,
        rest: seq<Region>, findings: seq<Finding>, hits: seq<Hit>)
    returns (c: Region, more: seq<Region>)
    requires Kept(a, b, rest)
    ensures Kept(a, c, more) && (Alone(a, c, more) <==> Alone(a, b, rest) && OtherRoles(hits))
    ensures AddPageHits(profile, pages, [a], Found([b] + rest, findings), hits).regions == [c] + more
    decreases |hits|
  {
    if hits == [] {
      c, more := b, rest;
    } else {
      var f := AddPageHit(profile, pages, [a], Found([b] + rest, findings), hits[0]);
      var d, next := AddPageHitAway(profile, pages, a, b, rest, findings, hits[0]);
      c, more := AddPageHitsAway(profile, pages, a, d, next, f.findings, hits[1..]);
      assert f == Found([d] + next, f.findings);
    }
  }

  /** An image run keeps off the approved region. */
  ghost predicate AwayRun(a: Region, r: Region) { r.role != APPROVED && Disjoint(a, r) }

  ghost predicate AllRunsAway(a: Region, rs: seq<Region>) { rs == [] || (AwayRun(a, rs[0]) && AllRunsAway(a, rs[1..])) }

  /** Every page of the region exists. */
  ghost predicate Exists(a: Region, pages: seq<PageInfo>) { forall q :: Within(a, q) ==> HasIndex(pages, q) }

  /** The pages from s to i are images outside the approved region. */
  ghost predicate RunOpen(a: Region, pages: seq<PageInfo>, s: nat, i: nat)
    requires s <= i <= |pages|
  {
    forall k :: s <= k < i ==> !Within(a, pages[k].index)
  }

  lemma RunIsAway(a: Region, pages: seq<PageInfo>, s: nat, i: nat, end: int)
    requires Rising(pages) && Exists(a, pages) && s < i <= |pages| && RunOpen(a, pages, s, i)
    requires end == if i < |pages| then pages[i].index - 1 else pages[i - 1].index
    ensures AwayRun(a, ImageRun(pages[s].index, end))
  {
    var r := ImageRun(pages[s].index, end);
    forall q | Within(r, q) ensures !Within(a, q) {
      if HasIndex(pages, q) {
        var k := IndexAt(pages, q);
        if k < s {
          RisingPair(pages, k, s);
        } else if i < k {
          RisingPair(pages, i, k);
        }
      }
    }
  }

  lemma {:induction false} RunsAreAway(a: Region, pages: seq<PageInfo>, i: nat, run: Option<int>, s: nat)
    requires Rising(pages) && Exists(a, pages) && i <= |pages|
    requires run.Some? ==> s < i && run.value == pages[s].index && RunOpen(a, pages, s, i)
    ensures AllRunsAway(a, ImageRuns([a], pages, i, run))
    decreases |pages| - i
  {
    assert forall q :: InSome([a], q) == Within(a, q) by { assert [a][..0] == []; }
    if i == |pages| {
      if run.Some? { RunIsAway(a, pages, s, i, pages[i - 1].index); }
    } else if IsImage([a], pages[i]) {
      RunsAreAway(a, pages, i + 1, if run.Some? then run else Some(pages[i].index), if run.Some? then s else i);
    } else {
      RunsAreAway(a, pages, i + 1, None, 0);
      var rest := ImageRuns([a], pages, i + 1, None);
      if run.Some? {
        RunIsAway(a, pages, s, i, pages[i].index - 1);
        assert ([ImageRun(run.value, pages[i].index - 1)] + rest)[1..] == rest;
      } else {
        assert [] + rest == rest;
      }
    }
  }

  /** What a region of the answer is to the approved one. */
  ghost predicate Away(a: Region, r: Region) {
    r.role in EXCLUSIVE || r.cueKind == "page_class" ==> Disjoint(a, r)
  }

  lemma {:induction false} AwayMembers(a: Region, more: seq<Region>, r: Region)
    requires AllAway(a, more) && r in more
    ensures Away(a, r)
  {
    if r != more[|more| - 1] {
      assert more == more[..|more| - 1] + [more[|more| - 1]];
      AwayMembers(a, more[..|more| - 1], r);
    }
  }

  lemma {:induction false} RunMembers(a: Region, runs: seq<Region>, r: Region)
    requires AllRunsAway(a, runs) && r in runs
    ensures Away(a, r) && !IsApproved(r)
  {
    if r != runs[0] { RunMembers(a, runs[1..], r); }
  }

  predicate IsApproved(r: Region) { r.role == APPROVED }

  lemma {:induction false} NoneApproved(rs: seq<Region>)
    ensures Count(rs, IsApproved) == 0 <==> NoneIs(rs)
  {
    if rs != [] {
      NoneApproved(rs[1..]);
      assert forall k :: 0 <= k < |rs[1..]| ==> rs[1..][k] == rs[k + 1];
      assert NoneIs(rs) <==> rs[0].role != APPROVED && NoneIs(rs[1..]) by {
        assert forall k :: 0 < k < |rs| ==> rs[k] == rs[1..][k - 1];
      }
    }
  }

  lemma {:induction false} BlockingStays(front: seq<Finding>, back: seq<Finding>)
    ensures AnyBlocking(front + back) <==> AnyBlocking(front) || AnyBlocking(back)
  {
    if front == [] {
      assert front + back == back;
    } else {
      BlockingStays(front[1..], back);
      assert (front + back)[1..] == front[1..] + back;
    }
  }

  lemma {:induction false} FindingsGrow(profile: Profile, pages: seq<PageInfo>, approved: seq<Region>, f: Found,
        hits: seq<Hit>)
    ensures AnyBlocking(f.findings) ==> AnyBlocking(AddPageHits(profile, pages, approved, f, hits).findings)
    decreases |hits|
  {
    if hits != [] {
      var g := AddPageHit(profile, pages, approved, f, hits[0]);
      if g.findings != f.findings {
        BlockingStays(f.findings, [Finding("existing_or_proposed_cue_inside_approved_region", Warning,
          [hits[0].page])]);
      }
      FindingsGrow(profile, pages, approved, g, hits[1..]);
    }
  }

  lemma CandidateExists(profile: Profile, pages: seq<PageInfo>, spanHits: seq<Hit>, stops: set<int>, a: Region)
    requires OnPages(spanHits, pages)
    requires var d := DocumentOf(profile, pages, spanHits, stops); var hits := Sort(spanHits, HitLe);
      GoodCandidate(d, hits, |hits|, a)
    ensures Exists(a, pages)
  {
    var d, hits := DocumentOf(profile, pages, spanHits, stops), Sort(spanHits, HitLe);
    SortExists(spanHits, pages);
    forall q | Within(a, q) ensures HasIndex(pages, q) {
      if HitPage(hits, |hits|, q) {
        HitPageExists(hits, pages, |hits|, q);
      } else {
        assert !d.Barred(q);
        MappedExists(pages, q);
      }
    }
  }

  /** The document that Localise walks, and the span hits it walks from. */
  function DocumentIn(profile: Profile, given: seq<PageInfo>): Document {
    var pages := Sort(given, PageLe);
    var hits := HitsOf(profile, pages);
    DocumentOf(profile, pages, Chosen(hits, true), StopPages(Chosen(hits, false)))
  }

  function SpanHitsIn(profile: Profile, given: seq<PageInfo>): seq<Hit> {
    Sort(Chosen(HitsOf(profile, Sort(given, PageLe)), true), HitLe)
  }

  /** The approved candidates of a document, as Localise computes them. */
  function ApprovedOf(profile: Profile, given: seq<PageInfo>): seq<Region> {
    Candidates(DocumentIn(profile, given), SpanHitsIn(profile, given), |SpanHitsIn(profile, given)|)
  }

  lemma OneCandidate(profile: Profile, given: seq<PageInfo>)
    requires Localise(profile, given).status == Proposed
    ensures |ApprovedOf(profile, given)| == 1
  {
    var pages := Sort(given, PageLe);
    var hits := HitsOf(profile, pages);
    var d := DocumentOf(profile, pages, Chosen(hits, true), StopPages(Chosen(hits, false)));
    var approved := ApprovedOf(profile, given);
    var first := Found(approved, SpanFindings(d, approved));
    var pageHits := Sort(Chosen(hits, false), HitKeyLe);
    var f := AddPageHits(profile, pages, approved, first, pageHits);
    var regions := f.regions + ImageRuns(approved, pages, 0, None);
    FindingsGrow(profile, pages, approved, first, pageHits);
    BlockingStays(f.findings, Expectations(profile, pages, regions));
  }

  lemma ApprovedExists(profile: Profile, given: seq<PageInfo>, a: Region)
    requires ApprovedOf(profile, given) == [a]
    ensures Grown(a, a) && Exists(a, Sort(given, PageLe))
  {
    var pages := Sort(given, PageLe);
    var hits := HitsOf(profile, pages);
    var spanHits, stops := Chosen(hits, true), StopPages(Chosen(hits, false));
    var d := DocumentOf(profile, pages, spanHits, stops);
    HitsAreSorted(spanHits);
    CandidateIsSound(d, Sort(spanHits, HitLe), 0, 0);
    HitsExist(profile, pages, 0);
    assert pages[0..] == pages;
    ChosenExist(hits, true, pages);
    CandidateExists(profile, pages, spanHits, stops, a);
  }

  /** A proposed answer comes from one walked region, all of whose pages exist; no region of an exclusive role
      and no image run shares a page with it.  It is in the answer, as the only approved one, exactly when no page
      has a cue of the approved role with page scope.  Beyond its first page it has no stop page and no image
      exactly when no span hit stands on such a page directly after the span that the walk from an opening hit
      reaches. */
  lemma ProposedIsSafe(profile: Profile, given: seq<PageInfo>) returns (a: Region)
    requires DistinctPages(given) && Localise(profile, given).status == Proposed
    ensures ApprovedOf(profile, given) == [a] && a.role == APPROVED && Exists(a, given)
    ensures forall r :: r in Localise(profile, given).regions ==> Away(a, r)
    ensures var regions := Localise(profile, given).regions;
      a in regions && Count(regions, IsApproved) == 1 <==> SpanOnly(profile, given)
    ensures var hits := SpanHitsIn(profile, given);
      Unbarred(DocumentIn(profile, given), a) <==> NoneFollows(DocumentIn(profile, given), hits, |hits|)
  {
    var pages := Sort(given, PageLe);
    OneCandidate(profile, given);
    a := ApprovedOf(profile, given)[0];
    assert ApprovedOf(profile, given) == [a];
    ApprovedExists(profile, given, a);
    SortedRises(given);
    forall q | Within(a, q) ensures HasIndex(given, q) { SortedIndex(given, q); }
    var b, more := OthersAway(profile, given, a);
    var runs := ImageRuns([a], pages, 0, None);
    RunsAreAway(a, pages, 0, None, 0);
    AnswerIs(a, b, more, runs);
    StopsOfOne(profile, given, a);
  }

  lemma {:induction false} MaxIndexBounds(pages: seq<PageInfo>, q: int)
    requires HasIndex(pages, q)
    ensures q <= MaxIndex(pages)
  {
    if pages[0].index != q { MaxIndexBounds(pages[1..], q); }
  }

  /** The walk of a document knows every span hit and the last page. */
  lemma WalkableIn(profile: Profile, given: seq<PageInfo>)
    ensures Walkable(DocumentIn(profile, given), SpanHitsIn(profile, given))
  {
    var pages := Sort(given, PageLe);
    var spanHits := Chosen(HitsOf(profile, pages), true);
    var d, hits := DocumentIn(profile, given), SpanHitsIn(profile, given);
    forall k | 0 <= k < |hits| ensures hits[k].page in d.spans { SortHas(spanHits, HitLe, hits[k]); }
    forall q | q in d.byIndex ensures q <= d.last {
      MappedExists(pages, q);
      MaxIndexBounds(pages, q);
    }
  }

  lemma StopsOfOne(profile: Profile, given: seq<PageInfo>, a: Region)
    requires ApprovedOf(profile, given) == [a]
    ensures var hits := SpanHitsIn(profile, given);
      Unbarred(DocumentIn(profile, given), a) <==> NoneFollows(DocumentIn(profile, given), hits, |hits|)
  {
    var d, hits := DocumentIn(profile, given), SpanHitsIn(profile, given);
    HitsAreSorted(Chosen(HitsOf(profile, Sort(given, PageLe)), true));
    WalkableIn(profile, given);
    StopsKeptOut(d, hits);
    assert AllUnbarred(d, [a]) <==> Unbarred(d, a) by { assert [a][0] == a; }
  }

  lemma SortedSpanOnly(profile: Profile, given: seq<PageInfo>)
    ensures SpanOnly(profile, Sort(given, PageLe)) <==> SpanOnly(profile, given)
  {
    forall p ensures p in Sort(given, PageLe) <==> p in given { SortHas(given, PageLe, p); }
  }

  lemma OthersAway(profile: Profile, given: seq<PageInfo>, a: Region) returns (b: Region, more: seq<Region>)
    requires ApprovedOf(profile, given) == [a] && Grown(a, a)
    ensures Kept(a, b, more) && (Alone(a, b, more) <==> SpanOnly(profile, given))
    ensures var pages := Sort(given, PageLe);
      Localise(profile, given).regions == Sort([b] + more + ImageRuns([a], pages, 0, None), RegionLe)
  {
    var pages := Sort(given, PageLe);
    var hits := HitsOf(profile, pages);
    var d := DocumentOf(profile, pages, Chosen(hits, true), StopPages(Chosen(hits, false)));
    SortedSpanOnly(profile, given);
    HitsSpan(profile, pages);
    OthersAreOther(hits);
    SortOther(Chosen(hits, false));
    b, more := AddPageHitsAway(profile, pages, a, a, [], SpanFindings(d, [a]), Sort(Chosen(hits, false), HitKeyLe));
    assert [a] + [] == [a];
  }

  lemma AnswerIs(a: Region, b: Region, more: seq<Region>, runs: seq<Region>)
    requires a.role == APPROVED && Kept(a, b, more) && AllRunsAway(a, runs)
    ensures var regions := Sort([b] + more + runs, RegionLe);
      && (forall r :: r in regions ==> Away(a, r))
      && (a in regions && Count(regions, IsApproved) == 1 <==> Alone(a, b, more))
  {
    var all := [b] + more + runs;
    forall r ensures r in Sort(all, RegionLe) <==> r in all { SortHas(all, RegionLe, r); }
    SortCount(all, RegionLe, IsApproved);
    MembersAway(a, b, more, runs);
    OneApproved(a, b, more, runs);
  }

  lemma MembersAway(a: Region, b: Region, more: seq<Region>, runs: seq<Region>)
    requires Kept(a, b, more) && AllRunsAway(a, runs)
    ensures forall r :: r in [b] + more + runs ==> Away(a, r)
  {
    forall r | r in [b] + more + runs ensures Away(a, r) {
      if r in more { AwayMembers(a, more, r); } else if r in runs { RunMembers(a, runs, r); }
    }
  }

  lemma OneApproved(a: Region, b: Region, more: seq<Region>, runs: seq<Region>)
    requires a.role == APPROVED && Grown(a, b) && AllRunsAway(a, runs)
    ensures var all := [b] + more + runs; a in all && Count(all, IsApproved) == 1 <==> Alone(a, b, more)
  {
    forall k | 0 <= k < |runs| ensures !IsApproved(runs[k]) { RunMembers(a, runs, runs[k]); }
    NoneApproved(runs);
    NoneApproved(more);
    assert ([b] + more)[1..] == more;
    CountConcat([b] + more, runs, IsApproved);
    assert a !in runs by { if a in runs { RunMembers(a, runs, a); } }
  }

  // ------------------------------------------------------------------ a stop page inside the approved region

  const SPAN_CUE := Cue(APPROVED, None, "span", None)
  const STOP_CUE := Cue("illustrative", None, "page", None)

  function SampleCues(): PageInfo -> seq<(Cue, string)> {
    (p: PageInfo) => if p.index == 5 then [(SPAN_CUE, "")] else [(SPAN_CUE, ""), (STOP_CUE, "")]
  }

  function SaysNothing(): PageInfo -> Option<string> { (p: PageInfo) => None }

  const SAMPLE := Profile("rate", None, {}, false, SampleCues(), SaysNothing(), SaysNothing())
  const PAGE5 := PageInfo(5, "text", [], "")
  const PAGE6 := PageInfo(6, "text", [], "")

  lemma SampleHits()
    ensures Sort([PAGE5, PAGE6], PageLe) == [PAGE5, PAGE6]
    ensures HitsOf(SAMPLE, [PAGE5, PAGE6]) == [Hit(SPAN_CUE, 5, ""), Hit(SPAN_CUE, 6, ""), Hit(STOP_CUE, 6, "")]
  {
    var pages := [PAGE5, PAGE6];
    assert pages[1..] == [PAGE6] && [PAGE6][1..] == [];
    assert HitsOn(SAMPLE.cuesOn(PAGE5), 5) == [Hit(SPAN_CUE, 5, "")];
    assert SAMPLE.cuesOn(PAGE6)[1..] == [(STOP_CUE, "")];
    assert HitsOn([(STOP_CUE, "")], 6) == [Hit(STOP_CUE, 6, "")];
    assert HitsOf(SAMPLE, [PAGE6]) == [Hit(SPAN_CUE, 6, ""), Hit(STOP_CUE, 6, "")];
    assert Sort([PAGE6], PageLe) == [PAGE6];
  }

  const SPAN5 := Hit(SPAN_CUE, 5, "")
  const SPAN6 := Hit(SPAN_CUE, 6, "")
  const STOP6 := Hit(STOP_CUE, 6, "")

  lemma SampleChosen()
    ensures Chosen([SPAN5, SPAN6, STOP6], true) == [SPAN5, SPAN6] && Chosen([SPAN5, SPAN6, STOP6], false) == [STOP6]
    ensures Sort([SPAN5, SPAN6], HitLe) == [SPAN5, SPAN6] && Sort([STOP6], HitKeyLe) == [STOP6]
    ensures StopPages([STOP6]) == {6}
  {
    assert [SPAN5, SPAN6, STOP6][1..] == [SPAN6, STOP6] && [SPAN6, STOP6][1..] == [STOP6] && [STOP6][1..] == [];
    assert Chosen([STOP6], true) == [] && Chosen([STOP6], false) == [STOP6];
    assert [SPAN5, SPAN6][1..] == [SPAN6] && [SPAN6][1..] == [];
    assert Sort([SPAN6], HitLe) == [SPAN6];
    assert StopPages([]) == {};
  }

  const APPROVED56 := Region(APPROVED, None, 5, 6, "", 5, "locator", None, None, None)

  /** The walk from page 5 stops before page 6, but the hit there extends the candidate. */
  lemma SampleCandidates(d: Document)
    requires d.stops == {6} && d.last == 6
    ensures Candidates(d, [SPAN5, SPAN6], 2) == [APPROVED56] && d.Barred(6)
  {
    var hits := [SPAN5, SPAN6];
    assert d.SpanEnd(5) == 5;
    assert Candidates(d, hits, 0) == [];
    assert Candidates(d, hits, 1) == [NewCandidate(d, SPAN5)];
  }

  lemma SampleDocument()
    ensures DocumentIn(SAMPLE, [PAGE5, PAGE6]).stops == {6} && DocumentIn(SAMPLE, [PAGE5, PAGE6]).last == 6
    ensures SpanHitsIn(SAMPLE, [PAGE5, PAGE6]) == [SPAN5, SPAN6]
  {
    SampleHits();
    SampleChosen();
    assert MaxIndex([PAGE5, PAGE6][1..]) == 6;
  }

  lemma SampleRegions(f: Found)
    ensures AddPageHits(SAMPLE, [PAGE5, PAGE6], [APPROVED56], f, [STOP6]) == f
    ensures ImageRuns([APPROVED56], [PAGE5, PAGE6], 0, None) == []
  {
    assert InSome([APPROVED56], 6);
    assert AddPageHit(SAMPLE, [PAGE5, PAGE6], [APPROVED56], f, STOP6) == f;
    assert AddPageHits(SAMPLE, [PAGE5, PAGE6], [APPROVED56], f, [STOP6][1..]) == f;
    assert ImageRuns([APPROVED56], [PAGE5, PAGE6], 2, None) == [];
    assert ImageRuns([APPROVED56], [PAGE5, PAGE6], 1, None) == [];
  }

  lemma {:induction false} NoneBlocking(fs: seq<Finding>)
    requires forall k :: 0 <= k < |fs| ==> fs[k].severity != Blocking
    ensures !AnyBlocking(fs)
  {
    if fs != [] { NoneBlocking(fs[1..]); }
  }

  lemma SampleFindings(d: Document)
    ensures !AnyBlocking(SpanFindings(d, [APPROVED56]) + Expectations(SAMPLE, [PAGE5, PAGE6], [APPROVED56]))
    ensures forall f :: f in SpanFindings(d, [APPROVED56]) + Expectations(SAMPLE, [PAGE5, PAGE6], [APPROVED56]) ==>
      6 !in f.pages
  {
    var pages := [PAGE5, PAGE6];
    assert pages[1..] == [PAGE6] && [PAGE6][1..] == [] && [APPROVED56][1..] == [];
    assert CodesOn(PAGE5.headings, "rate") == {} && CodesOn(PAGE6.headings, "rate") == {}
      && CodesSeen([], "rate") == {};
    assert CodesSeen([PAGE6], "rate") == {};
    assert CodesSeen(pages, "rate") == CodesOn(pages[0].headings, "rate") + CodesSeen(pages[1..], "rate");
    assert !HasRole([APPROVED56], "proposed_tariff");
    var last := Finding("proposed_tariff_absent", Info, []);
    assert Expectations(SAMPLE, pages, [APPROVED56]) == [last];
    var first := Finding("approved_region_without_schedule_headings", Warning, [5]);
    assert HeadingFindings(d, []) == [];
    assert SpanFindings(d, [APPROVED56]) == [] || SpanFindings(d, [APPROVED56]) == [first];
    assert [first] + [last] == [first, last] && [] + [last] == [last];
    NoneBlocking([first, last]);
    NoneBlocking([last]);
  }

  /** Finding: page 6 carries a span hit and an illustrative cue, which makes it a stop page.  The answer is
      proposed all the same, page 6 is approved, and neither a region nor a finding tells of the cue. */
  lemma StopPageIsApproved()
    ensures var answer := Localise(SAMPLE, [PAGE5, PAGE6]);
      && answer.status == Proposed && answer.regions == [APPROVED56] && DocumentIn(SAMPLE, [PAGE5, PAGE6]).Barred(6)
      && forall f :: f in answer.findings ==> 6 !in f.pages
  {
    var d := DocumentIn(SAMPLE, [PAGE5, PAGE6]);
    SampleHits();
    SampleChosen();
    SampleDocument();
    SampleCandidates(d);
    SampleRegions(Found([APPROVED56], SpanFindings(d, [APPROVED56])));
    SampleFindings(d);
    assert [APPROVED56] + [] == [APPROVED56] && Sort([APPROVED56], RegionLe) == [APPROVED56];
  }

  // ------------------------------------------------------------------ a second approved region

  const PAGE_CUE := Cue(APPROVED, None, "page", None)
  const TWICE5 := Hit(PAGE_CUE, 5, "")

  function TwiceCues(): PageInfo -> seq<(Cue, string)> { (p: PageInfo) => [(SPAN_CUE, ""), (PAGE_CUE, "")] }

  const TWICE := Profile("rate", None, {}, false, TwiceCues(), SaysNothing(), SaysNothing())
  const APPROVED5 := Region(APPROVED, None, 5, 5, "", 5, "locator", None, None, None)

  lemma TwiceHits()
    ensures Sort([PAGE5], PageLe) == [PAGE5] && HitsOf(TWICE, [PAGE5]) == [SPAN5, TWICE5]
    ensures Chosen([SPAN5, TWICE5], true) == [SPAN5] && Chosen([SPAN5, TWICE5], false) == [TWICE5]
    ensures Sort([SPAN5], HitLe) == [SPAN5] && Sort([TWICE5], HitKeyLe) == [TWICE5] && StopPages([TWICE5]) == {}
  {
    assert TWICE.cuesOn(PAGE5)[1..] == [(PAGE_CUE, "")];
    assert HitsOn([(PAGE_CUE, "")], 5) == [TWICE5];
    assert [SPAN5, TWICE5][1..] == [TWICE5] && [TWICE5][1..] == [];
    assert Chosen([TWICE5], true) == [] && Chosen([TWICE5], false) == [TWICE5];
  }

  lemma TwiceRegions(f: Found)
    requires f.regions == [APPROVED5]
    ensures AddPageHits(TWICE, [PAGE5], [APPROVED5], f, [TWICE5]) == Found([APPROVED5, APPROVED5], f.findings)
    ensures ImageRuns([APPROVED5], [PAGE5], 0, None) == []
  {
    var g := Found([APPROVED5, APPROVED5], f.findings);
    assert AddPageHit(TWICE, [PAGE5], [APPROVED5], f, TWICE5) == g;
    assert AddPageHits(TWICE, [PAGE5], [APPROVED5], g, [TWICE5][1..]) == g;
    assert ImageRuns([APPROVED5], [PAGE5], 1, None) == [];
  }

  lemma TwiceFindings(d: Document)
    ensures !AnyBlocking(SpanFindings(d, [APPROVED5]) + Expectations(TWICE, [PAGE5], [APPROVED5, APPROVED5]))
  {
    var front, back := SpanFindings(d, [APPROVED5]), Expectations(TWICE, [PAGE5], [APPROVED5, APPROVED5]);
    assert HeadingFindings(d, [APPROVED5][1..]) == [];
    NoneBlocking(front);
    assert CodesOn(PAGE5.headings, "rate") == {} && CodesSeen([PAGE5][1..], "rate") == {};
    assert CodesSeen([PAGE5], "rate") == {};
    NoneBlocking(back);
    BlockingStays(front, back);
  }

  lemma TwiceCandidates(d: Document)
    requires d.last == 5
    ensures Candidates(d, [SPAN5], 1) == [APPROVED5]
  {
    assert d.SpanEnd(5) == 5;
    assert Candidates(d, [SPAN5], 0) == [];
  }

  /** A cue of the approved role with page scope, on the page that opens the span: the answer is
      proposed with two approved regions of the same page. */
  lemma PageScopeDoubles()
    ensures var answer := Localise(TWICE, [PAGE5]);
      answer.status == Proposed && answer.regions == [APPROVED5, APPROVED5]
  {
    var d := DocumentIn(TWICE, [PAGE5]);
    TwiceHits();
    TwiceCandidates(d);
    TwiceRegions(Found([APPROVED5], SpanFindings(d, [APPROVED5])));
    TwiceFindings(d);
    assert [APPROVED5, APPROVED5] + [] == [APPROVED5, APPROVED5];
    assert Sort([APPROVED5, APPROVED5][1..], RegionLe) == [APPROVED5];
    assert Sort([APPROVED5, APPROVED5], RegionLe) == [APPROVED5, APPROVED5];
  }
}
