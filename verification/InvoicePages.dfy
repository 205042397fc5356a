// The invoice page's walk over the server's pages, and its paid totals
// (client/src/pages/Invoices.tsx:63-115, server/src/routes/invoices.ts:66-84), while
// invoices arrive and change status between the requests.
module InvoicePages {

  datatype Status = Draft | Sent | Paid {
    function Rank(): nat {
      match this
      case Draft => 0
      case Sent => 1
      case Paid => 2
    }
  }

  /** Amounts in cents. */
  datatype Invoice = Invoice(id: nat, status: Status, tax: int, total: int)

  /** The server's answer: it asks for one row more than the limit to learn whether there is more. */
  datatype Page = Page(invoices: seq<Invoice>, hasMore: bool)

  function Rows(list: seq<Invoice>, limit: nat, offset: nat): seq<Invoice> {
    if offset >= |list| then []
    else if offset + limit <= |list| then list[offset..offset + limit]
    else list[offset..]
  }

  function List(list: seq<Invoice>, limit: nat, offset: nat): Page {
    var rows := Rows(list, limit + 1, offset);
    var hasMore := |rows| > limit;
    Page(if hasMore then rows[..limit] else rows, hasMore)
  }

  function Fetch(list: seq<Invoice>, limit: nat, offset: nat): Page
    requires offset <= |list|
  {
    if offset + limit < |list| then Page(list[offset..offset + limit], true) else Page(list[offset..], false)
  }

  /** The page fetched is the server's answer: the extra row tells whether there is more. */
  lemma FetchIsList(list: seq<Invoice>, limit: nat, offset: nat)
    requires offset <= |list|
    ensures Fetch(list, limit, offset) == List(list, limit, offset)
  {
    if offset + limit < |list| {
      var rows := Rows(list, limit + 1, offset);
      assert |rows| == limit + 1;
      assert rows[..limit] == list[offset..offset + limit];
    }
  }

  // ---- What can happen to the list ----

  /** send and mark-paid: the status moves forward, and nothing else changes. */
  predicate Advances(before: Invoice, after: Invoice) {
    before.status.Rank() <= after.status.Rank() && after == before.(status := after.status)
  }

  /** Newest first: new invoices come in front, those there stay in order and only advance. */
  predicate Evolves(before: seq<Invoice>, after: seq<Invoice>) {
    && |before| <= |after|
    && forall i :: 0 <= i < |before| ==> Advances(before[i], after[|after| - |before| + i])
  }

  lemma EvolvesTwice(a: seq<Invoice>, b: seq<Invoice>, c: seq<Invoice>)
    requires Evolves(a, b) && Evolves(b, c)
    ensures Evolves(a, c)
  {
    forall i | 0 <= i < |a|
      ensures Advances(a[i], c[|c| - |a| + i])
    {
      assert Advances(a[i], b[|b| - |a| + i]);
      assert Advances(b[|b| - |a| + i], c[|c| - |b| + (|b| - |a| + i)]);
    }
  }

  predicate DistinctIds(list: seq<Invoice>) {
    forall i, j :: 0 <= i < j < |list| ==> list[i].id != list[j].id
  }

  /** The list as each further request of a walk finds it; the last one stays. */
  datatype History = Steady(list: seq<Invoice>) | Changing(list: seq<Invoice>, next: History)

  function Later(h: History): History {
    if h.Steady? then h else h.next
  }

  predicate Lives(h: History) {
    && DistinctIds(h.list)
    && (h.Changing? ==> Evolves(h.list, h.next.list) && Lives(h.next))
  }

  // ---- The walk ----

  /** What a walk from `offset` collects. */
  function Walk(h: History, limit: nat, offset: nat): seq<Invoice>
    requires limit >= 1 && offset <= |h.list| && Lives(h)
    decreases h, |h.list| - offset
  {
    var page := Fetch(h.list, limit, offset);
    if page.hasMore then page.invoices + Walk(Later(h), limit, offset + limit) else page.invoices
  }

  /** The list as the walk's last request finds it. */
  function AtEnd(h: History, limit: nat, offset: nat): seq<Invoice>
    requires limit >= 1 && offset <= |h.list| && Lives(h)
    decreases h, |h.list| - offset
  {
    if offset + limit < |h.list| then AtEnd(Later(h), limit, offset + limit) else h.list
  }

  lemma {:induction false} EndEvolves(h: History, limit: nat, offset: nat)
    requires limit >= 1 && offset <= |h.list| && Lives(h)
    ensures Evolves(h.list, AtEnd(h, limit, offset)) && DistinctIds(AtEnd(h, limit, offset))
    decreases h, |h.list| - offset
  {
    if offset + limit < |h.list| {
      EndEvolves(Later(h), limit, offset + limit);
      EvolvesTwice(h.list, Later(h).list, AtEnd(h, limit, offset));
    }
  }

  /** What is left to collect, once the loop has seen whether there is more. */
  function Ahead(h: History, limit: nat, offset: nat, hasMore: bool): seq<Invoice>
    requires limit >= 1 && offset <= |h.list| && Lives(h)
  {
    if hasMore then Walk(h, limit, offset) else []
  }

  lemma Append3(a: seq<Invoice>, b: seq<Invoice>, c: seq<Invoice>)
    ensures a + (b + c) == (a + b) + c
  {
  }

  lemma PageThenAhead(h: History, limit: nat, offset: nat)
    requires limit >= 1 && offset <= |h.list| && Lives(h)
    ensures var page := Fetch(h.list, limit, offset);
            && offset + |page.invoices| <= |h.list| <= |Later(h).list| && (page.hasMore ==> |page.invoices| == limit)
            && Walk(h, limit, offset) == page.invoices + Ahead(Later(h), limit, offset + |page.invoices|, page.hasMore)
  {
    var page := Fetch(h.list, limit, offset);
    if !page.hasMore {
      assert page.invoices + [] == page.invoices;
    }
  }

  /** Between rounds: what is loaded and what lies ahead make up the walk. */
  predicate Loading(walk: seq<Invoice>, loaded: seq<Invoice>, h: History, limit: nat, offset: nat, hasMore: bool)
    requires limit >= 1 && offset <= |h.list| && Lives(h)
  {
    walk == loaded + Ahead(h, limit, offset, hasMore)
  }

  lemma OneRound(walk: seq<Invoice>, loaded: seq<Invoice>, h: History, limit: nat, offset: nat)
    requires limit >= 1 && offset <= |h.list| && Lives(h) && Loading(walk, loaded, h, limit, offset, true)
    ensures var page := Fetch(h.list, limit, offset);
            && offset + |page.invoices| <= |h.list| <= |Later(h).list| && (page.hasMore ==> |page.invoices| == limit)
            && Loading(walk, loaded + page.invoices, Later(h), limit, offset + |page.invoices|, page.hasMore)
  {
    var page := Fetch(h.list, limit, offset);
    PageThenAhead(h, limit, offset);
    var rest := Ahead(Later(h), limit, offset + |page.invoices|, page.hasMore);
    assert walk == loaded + (page.invoices + rest);
    Append3(loaded, page.invoices, rest);
  }

  lemma StableWalk(h: History, limit: nat)
    requires limit >= 1 && Lives(h) && h.Steady?
    ensures Walk(h, limit, 0) == h.list
  {
    SteadyIsQuiet(h, limit, 0);
    QuietWalk(h, limit, 0);
  }

  /** load(): the loop of the page. On a list that does not change, whatever its length and
      the page size, it ends with the whole list in order. */
  method Load(h: History, limit: nat) returns (loaded: seq<Invoice>)
    requires limit >= 1 && Lives(h)
    ensures loaded == Walk(h, limit, 0)
    ensures h.Steady? ==> loaded == h.list
  {
    ghost var walk := Walk(h, limit, 0);
    if h.Steady? {
      StableWalk(h, limit);
    }
    loaded := [];
    var now := h;
    var offset: nat, hasMore := 0, true;
    assert [] + walk == walk;
    while hasMore
      invariant Lives(now) && offset <= |now.list|
      invariant Loading(walk, loaded, now, limit, offset, hasMore)
      decreases now, |now.list| - offset, hasMore
    {
      OneRound(walk, loaded, now, limit, offset);
      var page := Fetch(now.list, limit, offset);
      loaded := loaded + page.invoices;
      hasMore := page.hasMore;
      offset := offset + |page.invoices|;
      now := Later(now);
    }
    assert loaded + [] == loaded;
  }

  /** The walk collects as many invoices as the list holds at its end, so each one that
      arrived meanwhile and is not among them is made up for by a repeat. */
  lemma {:induction false} WalkLength(h: History, limit: nat, offset: nat)
    requires limit >= 1 && offset <= |h.list| && Lives(h)
    ensures |Walk(h, limit, offset)| == |AtEnd(h, limit, offset)| - offset
    decreases h, |h.list| - offset
  {
    if offset + limit < |h.list| {
      WalkLength(Later(h), limit, offset + limit);
    }
  }

  lemma AdvancesTwice(a: Invoice, b: Invoice, c: Invoice)
    requires Advances(a, b) && Advances(b, c)
    ensures Advances(a, c)
  {
  }

  /** No invoice of the list a walk starts on is missed: arrivals only push it further back.
      It is collected as it was then or as it has become. */
  lemma {:induction false} WalkCovers(h: History, limit: nat, offset: nat, i: nat) returns (k: nat)
    requires limit >= 1 && offset <= i < |h.list| && Lives(h)
    ensures k < |Walk(h, limit, offset)| && Advances(h.list[i], Walk(h, limit, offset)[k])
    decreases h, |h.list| - offset
  {
    if i >= offset + limit {
      var next := Later(h).list;
      var further := |next| - |h.list| + i;
      assert Advances(h.list[i], next[further]);
      k := WalkCovers(Later(h), limit, offset + limit, further);
      AdvancesTwice(h.list[i], next[further], Walk(Later(h), limit, offset + limit)[k]);
      FurtherPages(h, limit, offset, k);
      k := limit + k;
    } else {
      k := i - offset;
      FirstPage(h, limit, offset, k);
    }
  }

  lemma FurtherPages(h: History, limit: nat, offset: nat, k: nat)
    requires limit >= 1 && Lives(h) && offset + limit < |h.list| && k < |Walk(Later(h), limit, offset + limit)|
    ensures limit + k < |Walk(h, limit, offset)|
    ensures Walk(h, limit, offset)[limit + k] == Walk(Later(h), limit, offset + limit)[k]
  {
    assert Walk(h, limit, offset) == h.list[offset..offset + limit] + Walk(Later(h), limit, offset + limit);
  }

  lemma FirstPage(h: History, limit: nat, offset: nat, k: nat)
    requires limit >= 1 && Lives(h) && k < limit && offset + k < |h.list|
    ensures k < |Walk(h, limit, offset)| && Walk(h, limit, offset)[k] == h.list[offset + k]
  {
    var page := Fetch(h.list, limit, offset);
    assert page.invoices[k] == h.list[offset + k];
  }

  // ---- When the result is the list ----

  /** From the request at `offset` on, no invoice arrives before a further request, and none
      already fetched changes. */
  predicate Quiet(h: History, limit: nat, offset: nat)
    requires limit >= 1 && offset <= |h.list| && Lives(h)
    decreases h, |h.list| - offset
  {
    offset + limit < |h.list| ==>
      && |Later(h).list| == |h.list|
      && Later(h).list[..offset + limit] == h.list[..offset + limit]
      && Quiet(Later(h), limit, offset + limit)
  }

  lemma {:induction false} SteadyIsQuiet(h: History, limit: nat, offset: nat)
    requires limit >= 1 && offset <= |h.list| && Lives(h) && h.Steady?
    ensures Quiet(h, limit, offset) && AtEnd(h, limit, offset) == h.list
    decreases |h.list| - offset
  {
    if offset + limit < |h.list| {
      SteadyIsQuiet(h, limit, offset + limit);
    }
  }

  lemma {:induction false} QuietWalk(h: History, limit: nat, offset: nat)
    requires limit >= 1 && offset <= |h.list| && Lives(h) && Quiet(h, limit, offset)
    ensures var end := AtEnd(h, limit, offset);
            && |end| == |h.list| && end[..offset] == h.list[..offset]
            && Walk(h, limit, offset) == end[offset..]
    decreases h, |h.list| - offset
  {
    if offset + limit < |h.list| {
      var end, seen := AtEnd(h, limit, offset), offset + limit;
      QuietWalk(Later(h), limit, seen);
      assert end[..seen] == h.list[..seen];
      assert end[..offset] == end[..seen][..offset] && h.list[..offset] == h.list[..seen][..offset];
      assert end[offset..seen] == end[..seen][offset..] && h.list[offset..seen] == h.list[..seen][offset..];
      assert end[offset..] == end[offset..seen] + end[seen..];
    }
  }

  /** An invoice between two equal ones has not changed. */
  lemma Sandwich(a: seq<Invoice>, b: seq<Invoice>, c: seq<Invoice>, n: nat)
    requires Evolves(a, b) && Evolves(b, c) && |a| == |c| && n <= |a| && a[..n] == c[..n]
    ensures |b| == |a| && a[..n] == b[..n]
  {
    forall i | 0 <= i < n
      ensures a[i] == b[i]
    {
      assert a[i] == a[..n][i] == c[..n][i] == c[i];
      assert Advances(a[i], b[|b| - |a| + i]) && Advances(b[i], c[|c| - |b| + i]);
    }
  }

  lemma {:induction false} WholeWalkIsQuiet(h: History, limit: nat, offset: nat)
    requires limit >= 1 && offset <= |h.list| && Lives(h)
    requires |AtEnd(h, limit, offset)| == |h.list| && AtEnd(h, limit, offset)[..offset] == h.list[..offset]
    requires Walk(h, limit, offset) == AtEnd(h, limit, offset)[offset..]
    ensures Quiet(h, limit, offset)
    decreases h, |h.list| - offset
  {
    if offset + limit < |h.list| {
      var end, seen := AtEnd(h, limit, offset), offset + limit;
      var rest := Walk(Later(h), limit, seen);
      assert Walk(h, limit, offset) == h.list[offset..seen] + rest;
      assert h.list[offset..seen] == end[offset..][..limit] == end[offset..seen];
      assert rest == end[offset..][limit..] == end[seen..];
      assert h.list[..seen] == h.list[..offset] + h.list[offset..seen];
      assert end[..seen] == end[..offset] + end[offset..seen];
      EndEvolves(Later(h), limit, seen);
      Sandwich(h.list, Later(h).list, end, seen);
      WholeWalkIsQuiet(Later(h), limit, seen);
    }
  }

  /** An arrival is not at the head of what the walk returns. */
  lemma ArrivalShows(h: History, limit: nat)
    requires limit >= 1 && Lives(h) && |AtEnd(h, limit, 0)| != |h.list|
    ensures Walk(h, limit, 0) != AtEnd(h, limit, 0)
  {
    var end := AtEnd(h, limit, 0);
    EndEvolves(h, limit, 0);
    assert limit < |h.list|;
    assert Walk(h, limit, 0)[0] == h.list[0];
    assert Advances(h.list[0], end[|end| - |h.list|]);
    assert end[0].id != end[|end| - |h.list|].id;
  }

  /** A walk returns the list as it stands at its last request exactly when, between its
      requests, no invoice arrived and none already fetched changed its status. */
  lemma WalkIsWholeListIff(h: History, limit: nat)
    requires limit >= 1 && Lives(h)
    ensures Walk(h, limit, 0) == AtEnd(h, limit, 0) <==> Quiet(h, limit, 0)
  {
    var end := AtEnd(h, limit, 0);
    assert end[0..] == end;
    if Quiet(h, limit, 0) {
      QuietWalk(h, limit, 0);
    } else if |end| != |h.list| {
      ArrivalShows(h, limit);
    } else if Walk(h, limit, 0) == end {
      WholeWalkIsQuiet(h, limit, 0);
    }
  }

  // ---- The paid totals ----

  datatype Totals = Totals(tax: int, revenue: int)

  function Plus(sums: Totals, invoice: Invoice): Totals {
    if invoice.status.Paid? then Totals(sums.tax + invoice.tax, sums.revenue + invoice.total) else sums
  }

  function PaidTotals(invoices: seq<Invoice>): Totals {
    if invoices == [] then Totals(0, 0) else Plus(PaidTotals(invoices[..|invoices| - 1]), invoices[|invoices| - 1])
  }

  /** The invoices paid now that the page collected before they were. */
  function PaidSince(collected: seq<Invoice>, now: seq<Invoice>): seq<Invoice>
    requires |collected| == |now|
  {
    if now == [] then []
    else
      var n := |now| - 1;
      var earlier := PaidSince(collected[..n], now[..n]);
      if now[n].status.Paid? && !collected[n].status.Paid? then earlier + [now[n]] else earlier
  }

  lemma TotalsOneMore(invoices: seq<Invoice>, last: Invoice)
    ensures PaidTotals(invoices + [last]) == Plus(PaidTotals(invoices), last)
  {
    assert (invoices + [last])[..|invoices|] == invoices;
  }

  lemma EvolvesButLast(before: seq<Invoice>, after: seq<Invoice>, n: nat)
    requires |before| == |after| == n + 1 && Evolves(before, after)
    ensures Evolves(before[..n], after[..n]) && Advances(before[n], after[n])
  {
    forall i | 0 <= i < n
      ensures Advances(before[..n][i], after[..n][i])
    {
      assert Advances(before[i], after[|after| - |before| + i]);
    }
    assert Advances(before[n], after[|after| - |before| + n]);
  }

  predicate Lag(shown: Totals, late: Totals, now: Totals) {
    now == Totals(shown.tax + late.tax, shown.revenue + late.revenue)
  }

  lemma LagOneMore(shown: Totals, late: Totals, now: Totals, before: Invoice, after: Invoice)
    requires Lag(shown, late, now) && Advances(before, after)
    ensures Lag(Plus(shown, before), if after.status.Paid? && !before.status.Paid? then Plus(late, after) else late, Plus(now, after))
  {
  }

  lemma {:induction false} TotalsLag(collected: seq<Invoice>, now: seq<Invoice>)
    requires |collected| == |now| && Evolves(collected, now)
    ensures Lag(PaidTotals(collected), PaidTotals(PaidSince(collected, now)), PaidTotals(now))
  {
    if now != [] {
      var n := |now| - 1;
      EvolvesButLast(collected, now, n);
      TotalsLag(collected[..n], now[..n]);
      var late := PaidSince(collected[..n], now[..n]);
      LagOneMore(PaidTotals(collected[..n]), PaidTotals(late), PaidTotals(now[..n]), collected[n], now[n]);
      TotalsOneMore(late, now[n]);
    }
  }

  lemma PagesLag(page: seq<Invoice>, rest: seq<Invoice>, end: seq<Invoice>, offset: nat, seen: nat)
    requires offset + |page| == seen <= |end| && |rest| == |end| - seen && Evolves(rest, end[seen..])
    requires forall i :: 0 <= i < |page| ==> Advances(page[i], end[offset + i])
    ensures Evolves(page + rest, end[offset..])
  {
    forall i | 0 <= i < |end| - offset
      ensures Advances((page + rest)[i], end[offset..][i])
    {
      if i < |page| {
        assert (page + rest)[i] == page[i] && end[offset..][i] == end[offset + i];
      } else {
        var k := i - |page|;
        assert Advances(rest[k], end[seen..][|end[seen..]| - |rest| + k]);
        assert (page + rest)[i] == rest[k] && end[offset..][i] == end[seen..][k];
      }
    }
  }

  lemma PageLagsEnd(list: seq<Invoice>, end: seq<Invoice>, page: seq<Invoice>, offset: nat)
    requires offset + |page| <= |list| == |end| && page == list[offset..offset + |page|] && Evolves(list, end)
    ensures forall i :: 0 <= i < |page| ==> Advances(page[i], end[offset + i])
  {
    forall i | 0 <= i < |page|
      ensures Advances(page[i], end[offset + i])
    {
      assert Advances(list[offset + i], end[|end| - |list| + (offset + i)]);
    }
  }

  /** The last page, or the only one, is the end of the list as it stands. */
  lemma LastPageLags(list: seq<Invoice>, offset: nat)
    requires offset <= |list|
    ensures Evolves(list[offset..], list[offset..])
  {
  }

  /** While none arrives, every invoice is collected in its place, at its status then or later. */
  lemma {:induction false} WalkLagsEnd(h: History, limit: nat, offset: nat)
    requires limit >= 1 && offset <= |h.list| && Lives(h) && |AtEnd(h, limit, offset)| == |h.list|
    ensures Evolves(Walk(h, limit, offset), AtEnd(h, limit, offset)[offset..])
    decreases h, |h.list| - offset
  {
    if offset + limit < |h.list| {
      var seen := offset + limit;
      var end := AtEnd(Later(h), limit, seen);
      EndEvolves(h, limit, offset);
      EndEvolves(Later(h), limit, seen);
      WalkLagsEnd(Later(h), limit, seen);
      WalkLength(Later(h), limit, seen);
      PageLagsEnd(h.list, end, h.list[offset..seen], offset);
      PagesLag(h.list[offset..seen], Walk(Later(h), limit, seen), end, offset, seen);
    } else {
      LastPageLags(h.list, offset);
    }
  }

  /** While no invoice arrives, the page's paid totals fall short of the list's at the last
      request by exactly the invoices marked paid after their page was fetched. */
  lemma PaidTotalsLag(h: History, limit: nat)
    requires limit >= 1 && Lives(h) && |AtEnd(h, limit, 0)| == |h.list|
    ensures var walk, end := Walk(h, limit, 0), AtEnd(h, limit, 0);
            |walk| == |end| && Lag(PaidTotals(walk), PaidTotals(PaidSince(walk, end)), PaidTotals(end))
  {
    var end := AtEnd(h, limit, 0);
    WalkLength(h, limit, 0);
    WalkLagsEnd(h, limit, 0);
    assert end[0..] == end;
    TotalsLag(Walk(h, limit, 0), end);
  }

  lemma TotalsOfThree(a: Invoice, b: Invoice, c: Invoice)
    ensures PaidTotals([a, b]) == Plus(Plus(Totals(0, 0), a), b)
    ensures PaidTotals([a, b, c]) == Plus(Plus(Plus(Totals(0, 0), a), b), c)
  {
    TotalsOneMore([], a);
    TotalsOneMore([a], b);
    TotalsOneMore([a, b], c);
    assert [] + [a] == [a] && [a] + [b] == [a, b] && [a, b] + [c] == [a, b, c];
  }

  lemma ArrivalWalk(paid: Invoice, older: Invoice, draft: Invoice)
    requires paid.id != older.id && draft.id != paid.id && draft.id != older.id
    ensures var h := Changing([paid, older], Steady([draft, paid, older]));
            Lives(h) && Walk(h, 1, 0) == [paid, paid, older]
  {
    var after := Steady([draft, paid, older]);
    assert Walk(after, 1, 2) == [older];
    assert Walk(after, 1, 1) == [paid] + [older];
    assert Walk(Changing([paid, older], after), 1, 0) == [paid] + [paid, older];
  }

  /** Concrete walk: pages of one, a draft arriving after the first request; the paid invoice
      then at the head is fetched and counted twice. */
  lemma ArrivalCountsTwice()
    ensures var paid, older, draft := Invoice(1, Paid, 15, 115), Invoice(2, Sent, 0, 50), Invoice(3, Draft, 0, 10);
            var h := Changing([paid, older], Steady([draft, paid, older]));
            && Lives(h) && Walk(h, 1, 0) == [paid, paid, older]
            && PaidTotals(Walk(h, 1, 0)) == Totals(30, 230) && PaidTotals([draft, paid, older]) == Totals(15, 115)
  {
    var paid, older, draft := Invoice(1, Paid, 15, 115), Invoice(2, Sent, 0, 50), Invoice(3, Draft, 0, 10);
    ArrivalWalk(paid, older, draft);
    TotalsOfThree(paid, paid, older);
    TotalsOfThree(draft, paid, older);
  }

  lemma MarkPaidWalk(sent: Invoice, paid: Invoice, older: Invoice)
    requires Advances(sent, paid) && sent.id != older.id
    ensures var h := Changing([sent, older], Steady([paid, older]));
            Lives(h) && Walk(h, 1, 0) == [sent, older] && AtEnd(h, 1, 0) == [paid, older]
  {
    var after := Steady([paid, older]);
    assert Walk(after, 1, 1) == [older] && AtEnd(after, 1, 1) == [paid, older];
    assert Walk(Changing([sent, older], after), 1, 0) == [sent] + [older];
  }

  /** Concrete walk: nothing arrives, but an invoice is marked paid after its page was fetched
      and is missing from the totals. */
  lemma MarkPaidIsMissed()
    ensures var sent, paid, older := Invoice(1, Sent, 15, 115), Invoice(1, Paid, 15, 115), Invoice(2, Sent, 0, 50);
            var h := Changing([sent, older], Steady([paid, older]));
            && Lives(h) && Walk(h, 1, 0) == [sent, older] && AtEnd(h, 1, 0) == [paid, older]
            && PaidTotals(Walk(h, 1, 0)) == Totals(0, 0) && PaidTotals(AtEnd(h, 1, 0)) == Totals(15, 115)
  {
    var sent, paid, older := Invoice(1, Sent, 15, 115), Invoice(1, Paid, 15, 115), Invoice(2, Sent, 0, 50);
    MarkPaidWalk(sent, paid, older);
    TotalsOfThree(sent, older, older);
    TotalsOfThree(paid, older, older);
  }
}
