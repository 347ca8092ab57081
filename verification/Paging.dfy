// Keyset pagination over a document collection that may change between pages.
module Paging {
  import opened Text
  import opened Order

  /** The fields the listings look at; a missing field is None. */
  datatype Doc = Doc(id: string, role: Option<string>, isVerified: Option<bool>)

  /** A collection as its name index presents it. */
  ghost predicate IsCollection(c: seq<Doc>) {
    forall i, j :: 0 <= i < j < |c| ==> Less(c[i].id, c[j].id)
  }

  datatype Filter = Filter(role: Option<string>, verified: Option<bool>)

  /** `where` clauses; an empty role string sets none. */
  predicate Matches(f: Filter, d: Doc) {
    && (f.role.Some? && f.role.value != "" ==> d.role == f.role)
    && (f.verified.Some? ==> d.isVerified == f.verified)
  }

  /** `startAfter(after)`, left out when the cursor is empty. */
  predicate Beyond(after: Option<string>, id: string) {
    after.Some? && after.value != "" ==> Less(after.value, id)
  }

  /** All hits of the query, in index order. */
  function Hits(c: seq<Doc>, f: Filter, after: Option<string>): seq<Doc> {
    if c == [] then []
    else
      var rest := Hits(c[1..], f, after);
      if Matches(f, c[0]) && Beyond(after, c[0].id) then [c[0]] + rest else rest
  }

  function Take<T>(s: seq<T>, n: nat): seq<T> {
    if |s| <= n then s else s[..n]
  }

  datatype JmUser = JmUser(uid: string, role: string, isVerified: bool)

  function ToUser(d: Doc): JmUser {
    JmUser(d.id, if d.role.Some? then d.role.value else "", d.isVerified == Some(true))
  }

  function ToUsers(docs: seq<Doc>): (users: seq<JmUser>)
    ensures |users| == |docs|
  {
    seq(|docs|, k requires 0 <= k < |docs| => ToUser(docs[k]))
  }

  datatype Page = Page(items: seq<JmUser>, nextCursor: Option<string>)

  /** One document more than the limit is fetched to see whether there is a next page. */
  function ListUsers(c: seq<Doc>, f: Filter, limit: nat, after: Option<string>): Page
    requires limit >= 1
  {
    var snap := Take(Hits(c, f, after), limit + 1);
    var docs := Take(snap, limit);
    Page(ToUsers(docs), if |snap| > limit then Some(docs[|docs| - 1].id) else None)
  }

  /** The vets' listing: the same pages, with each record's account data filled in. */
  datatype PnVet = PnVet(uid: string, email: Option<string>, disabled: Option<bool>)

  datatype Account = Account(email: Option<string>, disabled: bool)

  function Enriched(uid: string, accounts: map<string, Account>): PnVet {
    if uid in accounts then PnVet(uid, accounts[uid].email, Some(accounts[uid].disabled)) else PnVet(uid, None, None)
  }

  method ListVets(c: seq<Doc>, limit: nat, after: Option<string>, accounts: map<string, Account>)
    returns (items: seq<PnVet>, nextCursor: Option<string>)
    requires limit >= 1
    ensures var page := ListUsers(c, Filter(Some("vet"), None), limit, after);
            && nextCursor == page.nextCursor && |items| == |page.items|
            && forall k :: 0 <= k < |items| ==> items[k] == Enriched(page.items[k].uid, accounts)
    ensures forall k :: 0 <= k < |items| ==> IsVet(c, items[k].uid)
    ensures forall k :: 0 <= k < |items| && items[k].uid in accounts ==>
              items[k].email == accounts[items[k].uid].email && items[k].disabled == Some(accounts[items[k].uid].disabled)
    ensures forall k :: 0 <= k < |items| && items[k].uid !in accounts ==> items[k].email == None && items[k].disabled == None
  {
    VetsOnly(c, limit, after);
    PageIs(c, Filter(Some("vet"), None), limit, after);
    hide Hits, IsVet, ListUsers, Take, Enriched;
    var snap := Take(Hits(c, Filter(Some("vet"), None), after), limit + 1);
    var docs := Take(snap, limit);
    items := seq(|docs|, k requires 0 <= k < |docs| => PnVet(docs[k].id, None, None));
    for k := 0 to |items|
      invariant |items| == |docs|
      invariant forall j :: 0 <= j < k ==> items[j] == Enriched(docs[j].id, accounts)
      invariant forall j :: k <= j < |items| ==> items[j] == PnVet(docs[j].id, None, None)
    {
      EnrichedIs(docs[k].id, accounts);
      if items[k].uid in accounts {
        var record := accounts[items[k].uid];
        items := items[k := items[k].(email := record.email, disabled := Some(record.disabled))];
      }
    }
    nextCursor := if |snap| > limit then Some(docs[|docs| - 1].id) else None;
    forall k | 0 <= k < |items| ensures items[k] == Enriched(items[k].uid, accounts) {
      EnrichedIs(docs[k].id, accounts);
    }
    RecordsShown(items, accounts);
  }

  lemma EnrichedIs(uid: string, accounts: map<string, Account>)
    ensures var vet := Enriched(uid, accounts);
            && vet.uid == uid
            && (uid in accounts ==> vet == PnVet(uid, accounts[uid].email, Some(accounts[uid].disabled)))
            && (uid !in accounts ==> vet == PnVet(uid, None, None))
  {
  }

  lemma RecordsShown(items: seq<PnVet>, accounts: map<string, Account>)
    requires forall k :: 0 <= k < |items| ==> items[k] == Enriched(items[k].uid, accounts)
    ensures forall k :: 0 <= k < |items| && items[k].uid in accounts ==>
              items[k].email == accounts[items[k].uid].email && items[k].disabled == Some(accounts[items[k].uid].disabled)
    ensures forall k :: 0 <= k < |items| && items[k].uid !in accounts ==> items[k].email == None && items[k].disabled == None
  {
  }

  lemma PageIs(c: seq<Doc>, f: Filter, limit: nat, after: Option<string>)
    requires limit >= 1
    ensures var snap := Take(Hits(c, f, after), limit + 1);
            var docs, page := Take(snap, limit), ListUsers(c, f, limit, after);
            && (|snap| > limit ==> docs != [])
            && page.nextCursor == (if |snap| > limit then Some(docs[|docs| - 1].id) else None)
            && |page.items| == |docs| && forall k :: 0 <= k < |docs| ==> page.items[k].uid == docs[k].id
  {
    hide Hits;
  }

  // ---- what the listings are for ----------------------------------------------------------

  /** The document has what the filter asks for; an absent filter, or the empty role, asks for nothing. */
  ghost predicate Fits(d: Doc, f: Filter) {
    && (f.role == None || f.role == Some("") || d.role == f.role)
    && (f.verified == None || d.isVerified == f.verified)
  }

  ghost predicate IsVet(c: seq<Doc>, id: string) {
    exists d :: d in c && d.id == id && d.role == Some("vet")
  }

  lemma {:induction false} HitsFit(c: seq<Doc>, f: Filter, after: Option<string>)
    ensures forall d :: d in Hits(c, f, after) ==> d in c && Fits(d, f)
  {
    if c != [] {
      HitsFit(c[1..], f, after);
    }
  }

  lemma VetsOnly(c: seq<Doc>, limit: nat, after: Option<string>)
    requires limit >= 1
    ensures var page := ListUsers(c, Filter(Some("vet"), None), limit, after);
            forall k :: 0 <= k < |page.items| ==> IsVet(c, page.items[k].uid)
  {
    var f := Filter(Some("vet"), None);
    var page, hits := ListUsers(c, f, limit, after), Hits(c, f, after);
    HitsFit(c, f, after);
    forall k | 0 <= k < |page.items| ensures IsVet(c, page.items[k].uid) {
      assert hits[k] in hits && page.items[k].uid == hits[k].id;
    }
  }

  /** Each listed user is a fitting document, shown with its own role and verification. */
  lemma UsersListed(c: seq<Doc>, f: Filter, limit: nat, after: Option<string>, k: nat)
    requires limit >= 1 && k < |ListUsers(c, f, limit, after).items|
    ensures var user := ListUsers(c, f, limit, after).items[k];
            exists d :: && d in c && Fits(d, f) && user.uid == d.id
                        && user.role == (match d.role case None => "" case Some(role) => role)
                        && (user.isVerified <==> d.isVerified == Some(true))
  {
    var hits := Hits(c, f, after);
    HitsFit(c, f, after);
    assert hits[k] in hits && ListUsers(c, f, limit, after).items[k] == ToUser(hits[k]);
  }

  // ---- what a query returns ---------------------------------------------------------------

  ghost predicate Ordered(docs: seq<Doc>) {
    forall i, j :: 0 <= i < j < |docs| ==> Less(docs[i].id, docs[j].id)
  }

  lemma {:induction false} HitsAreTheMatches(c: seq<Doc>, f: Filter, after: Option<string>)
    requires IsCollection(c)
    ensures Ordered(Hits(c, f, after))
    ensures forall d :: d in Hits(c, f, after) <==> d in c && Matches(f, d) && Beyond(after, d.id)
  {
    if c != [] {
      HitsAreTheMatches(c[1..], f, after);
      var rest := Hits(c[1..], f, after);
      assert forall d :: d in c <==> d == c[0] || d in c[1..];
      forall k | 0 <= k < |rest| ensures Less(c[0].id, rest[k].id) {
        assert rest[k] in rest;
        var m :| 0 <= m < |c[1..]| && c[1..][m] == rest[k];
        assert c[m + 1] == rest[k];
      }
    }
  }

  /** The first document of a collection comes before every hit among the rest. */
  lemma HeadIsBefore(c: seq<Doc>, f: Filter, after: Option<string>, n: nat)
    requires IsCollection(c) && c != [] && n < |Hits(c[1..], f, after)|
    ensures Less(c[0].id, Hits(c[1..], f, after)[n].id) && !Less(Hits(c[1..], f, after)[n].id, c[0].id)
  {
    hide Less, Matches, Hits;
    var rest := Hits(c[1..], f, after);
    HitsAreTheMatches(c[1..], f, after);
    assert rest[n] in rest;
    var m :| 0 <= m < |c[1..]| && c[1..][m] == rest[n];
    assert c[m + 1] == rest[n];
    Asymmetric(c[0].id, rest[n].id);
  }

  /** Going on after the n-th hit gives the hits after it. */
  lemma {:induction false} HitsAfterHit(c: seq<Doc>, f: Filter, after: Option<string>, n: nat)
    requires IsCollection(c) && n < |Hits(c, f, after)|
    requires Hits(c, f, after)[n].id != ""
    ensures Hits(c, f, Some(Hits(c, f, after)[n].id)) == Hits(c, f, after)[n + 1..]
  {
    hide Less, Matches;
    var hits, rest := Hits(c, f, after), Hits(c[1..], f, after);
    var here := Matches(f, c[0]) && Beyond(after, c[0].id);
    if here && n == 0 {
      Irreflexive(c[0].id);
      AllBeyond(c[1..], f, after, c[0].id);
    } else {
      var m := if here then n - 1 else n;
      assert hits[n] == rest[m];
      HeadIsBefore(c, f, after, m);
      HitsAfterHit(c[1..], f, after, m);
      assert hits[n + 1..] == rest[m + 1..];
    }
  }

  lemma {:induction false} AllBeyond(c: seq<Doc>, f: Filter, after: Option<string>, id: string)
    requires id != "" && Beyond(after, id) && forall k :: 0 <= k < |c| ==> Less(id, c[k].id)
    ensures Hits(c, f, Some(id)) == Hits(c, f, after)
  {
    if c != [] {
      if after.Some? && after.value != "" {
        Transitive(after.value, id, c[0].id);
      }
      AllBeyond(c[1..], f, after, id);
    }
  }

  // ---- walks ----------------------------------------------------------------------------------

  /**
   * A client follows nextCursor until it is null; colls[k] is the collection
   * when page k is fetched.
   */
  function Walk(colls: seq<seq<Doc>>, f: Filter, limit: nat, after: Option<string>): seq<Page>
    requires limit >= 1
  {
    if colls == [] then []
    else
      var page := ListUsers(colls[0], f, limit, after);
      if page.nextCursor == None then [page] else [page] + Walk(colls[1..], f, limit, page.nextCursor)
  }

  predicate Completed(walk: seq<Page>) {
    walk != [] && walk[|walk| - 1].nextCursor == None
  }

  /** Everything the walk returned, in order. */
  function Uids(items: seq<JmUser>): (ids: seq<string>)
    ensures |ids| == |items|
  {
    seq(|items|, k requires 0 <= k < |items| => items[k].uid)
  }

  function Returned(walk: seq<Page>): seq<string> {
    if walk == [] then [] else Uids(walk[0].items) + Returned(walk[1..])
  }

  /** A document of that id matches whenever one of the first n pages is fetched. */
  ghost predicate MatchesThroughout(colls: seq<seq<Doc>>, f: Filter, n: nat, id: string) {
    n <= |colls| && forall k :: 0 <= k < n ==> HasMatch(colls[k], f, id)
  }

  ghost predicate HasMatch(c: seq<Doc>, f: Filter, id: string) {
    exists d :: d in c && d.id == id && Matches(f, d)
  }

  /** Document names are not empty. */
  ghost predicate Named(c: seq<Doc>) {
    forall k :: 0 <= k < |c| ==> c[k].id != ""
  }

  ghost predicate Collections(colls: seq<seq<Doc>>) {
    forall k :: 0 <= k < |colls| ==> IsCollection(colls[k]) && Named(colls[k])
  }

  /** A page holds the first hits; there is a next cursor iff some are left, and it is the last one on the page. */
  lemma PageOfHits(c: seq<Doc>, f: Filter, limit: nat, after: Option<string>)
    requires limit >= 1
    ensures var page, hits := ListUsers(c, f, limit, after), Hits(c, f, after);
            var ids := Uids(page.items);
            && |ids| == (if |hits| <= limit then |hits| else limit)
            && (forall k :: 0 <= k < |ids| ==> ids[k] == hits[k].id)
            && (page.nextCursor.Some? <==> |hits| > limit)
            && (page.nextCursor.Some? ==> ids != [] && page.nextCursor == Some(ids[|ids| - 1]))
  {
    hide Hits;
  }

  /** Every matching document beyond the cursor is a hit. */
  lemma MatchIsHit(c: seq<Doc>, f: Filter, after: Option<string>, x: string) returns (k: nat)
    requires IsCollection(c) && HasMatch(c, f, x) && Beyond(after, x)
    ensures k < |Hits(c, f, after)| && Hits(c, f, after)[k].id == x
  {
    hide Hits, Less, Matches;
    HitsAreTheMatches(c, f, after);
    var d :| d in c && d.id == x && Matches(f, d);
    assert d in Hits(c, f, after);
    k :| 0 <= k < |Hits(c, f, after)| && Hits(c, f, after)[k] == d;
  }

  lemma HitMatches(c: seq<Doc>, f: Filter, after: Option<string>, k: nat)
    requires IsCollection(c) && Named(c) && k < |Hits(c, f, after)|
    ensures var x := Hits(c, f, after)[k].id; HasMatch(c, f, x) && Beyond(after, x) && x != ""
  {
    hide Hits, Less, Matches;
    HitsAreTheMatches(c, f, after);
    assert Hits(c, f, after)[k] in Hits(c, f, after);
  }

  /** One page: increasing, beyond the cursor, matches only, and with no gap up to the next cursor. */
  lemma PageIsAWindow(c: seq<Doc>, f: Filter, limit: nat, after: Option<string>)
    requires limit >= 1 && IsCollection(c) && Named(c)
    ensures var page := ListUsers(c, f, limit, after);
            var ids := Uids(page.items);
            && Increasing(ids)
            && (forall x :: x in ids ==> HasMatch(c, f, x) && Beyond(after, x) && x != "")
            && (page.nextCursor.Some? ==> ids != [] && page.nextCursor == Some(ids[|ids| - 1]))
            && (forall x ::
                  HasMatch(c, f, x) && Beyond(after, x) && (page.nextCursor.Some? ==> !Less(page.nextCursor.value, x))
                  ==> x in ids)
  {
    hide Hits, ListUsers, Uids, Less, Matches, HasMatch, Beyond, IsCollection, Named;
    HitsAreTheMatches(c, f, after);
    PageOfHits(c, f, limit, after);
    var hits := Hits(c, f, after);
    var page := ListUsers(c, f, limit, after);
    var ids := Uids(page.items);
    forall x | x in ids ensures HasMatch(c, f, x) && Beyond(after, x) && x != "" {
      var k :| 0 <= k < |ids| && ids[k] == x;
      HitMatches(c, f, after, k);
    }
    forall x | HasMatch(c, f, x) && Beyond(after, x) && (page.nextCursor.Some? ==> !Less(page.nextCursor.value, x))
      ensures x in ids
    {
      var k := MatchIsHit(c, f, after, x);
      assert k < |ids| ==> ids[k] == x;
    }
  }

  lemma IncreasingJoin(a: seq<string>, b: seq<string>, cursor: string)
    requires Increasing(a) && Increasing(b)
    requires a != [] && a[|a| - 1] == cursor && forall x :: x in b ==> Less(cursor, x)
    ensures Increasing(a + b)
  {
    var all := a + b;
    forall i, j | 0 <= i < j < |all| ensures Less(all[i], all[j]) {
      if i < |a| <= j {
        assert all[j] in b;
        if i < |a| - 1 {
          Transitive(a[i], cursor, all[j]);
        }
      }
    }
  }

  /** A walk never goes back: what it returns is strictly increasing and beyond the cursor. */
  lemma {:induction false} WalkIsIncreasing(colls: seq<seq<Doc>>, f: Filter, limit: nat, after: Option<string>)
    requires limit >= 1 && Collections(colls)
    ensures var walk := Walk(colls, f, limit, after);
            && |walk| <= |colls|
            && Increasing(Returned(walk))
            && forall x :: x in Returned(walk) ==> Beyond(after, x) && x != ""
  {
    if colls != [] {
      hide HasMatch, ListUsers, IsCollection, Less;
      PageIsAWindow(colls[0], f, limit, after);
      var page := ListUsers(colls[0], f, limit, after);
      var ids := Uids(page.items);
      if page.nextCursor.Some? {
        var cursor := page.nextCursor.value;
        assert ids[|ids| - 1] in ids;
        WalkIsIncreasing(colls[1..], f, limit, page.nextCursor);
        var rest := Walk(colls[1..], f, limit, page.nextCursor);
        WalkUnfolds(colls, f, limit, after);
        IncreasingJoin(ids, Returned(rest), cursor);
        forall x | x in Returned(rest) ensures Beyond(after, x) {
          if after.Some? && after.value != "" {
            Transitive(after.value, cursor, x);
          }
        }
      } else {
        WalkUnfolds(colls, f, limit, after);
      }
    }
  }

  lemma WalkUnfolds(colls: seq<seq<Doc>>, f: Filter, limit: nat, after: Option<string>)
    requires limit >= 1 && colls != []
    ensures var page := ListUsers(colls[0], f, limit, after);
            var walk := Walk(colls, f, limit, after);
            if page.nextCursor == None then walk == [page] && Returned(walk) == Uids(page.items)
            else
              var rest := Walk(colls[1..], f, limit, page.nextCursor);
              && |walk| == |rest| + 1
              && Returned(walk) == Uids(page.items) + Returned(rest)
              && (Completed(walk) ==> Completed(rest))
  {
    hide ListUsers;
    var page := ListUsers(colls[0], f, limit, after);
    var walk := Walk(colls, f, limit, after);
    if page.nextCursor == None {
      assert Returned(walk[1..]) == [];
    } else {
      assert walk[1..] == Walk(colls[1..], f, limit, page.nextCursor);
    }
  }

  /** Everything returned matched when its page was fetched. */
  lemma {:induction false} WalkReturnsMatches(colls: seq<seq<Doc>>, f: Filter, limit: nat, after: Option<string>, x: string)
    requires limit >= 1 && Collections(colls) && x in Returned(Walk(colls, f, limit, after))
    ensures exists k :: 0 <= k < |Walk(colls, f, limit, after)| && k < |colls| && HasMatch(colls[k], f, x)
  {
    hide HasMatch, ListUsers, IsCollection;
    PageIsAWindow(colls[0], f, limit, after);
    WalkUnfolds(colls, f, limit, after);
    var page := ListUsers(colls[0], f, limit, after);
    if x in Uids(page.items) {
      assert HasMatch(colls[0], f, x);
    } else {
      WalkReturnsMatches(colls[1..], f, limit, page.nextCursor, x);
      var k :| 0 <= k < |colls[1..]| && k < |Walk(colls[1..], f, limit, page.nextCursor)| && HasMatch(colls[1..][k], f, x);
      assert HasMatch(colls[k + 1], f, x);
    }
  }

  /** A completed walk leaves out nothing that matched throughout. */
  lemma {:induction false} WalkCovers(colls: seq<seq<Doc>>, f: Filter, limit: nat, after: Option<string>, x: string)
    requires limit >= 1 && Collections(colls) && Completed(Walk(colls, f, limit, after))
    requires MatchesThroughout(colls, f, |Walk(colls, f, limit, after)|, x) && Beyond(after, x)
    ensures x in Returned(Walk(colls, f, limit, after))
  {
    hide HasMatch, ListUsers, IsCollection;
    PageIsAWindow(colls[0], f, limit, after);
    WalkUnfolds(colls, f, limit, after);
    var page := ListUsers(colls[0], f, limit, after);
    if page.nextCursor.Some? && Less(page.nextCursor.value, x) {
      assert forall k :: 0 <= k < |colls[1..]| ==> colls[1..][k] == colls[k + 1];
      WalkCovers(colls[1..], f, limit, page.nextCursor, x);
    }
  }

  /**
   * A completed walk from the start returns every document that matches
   * throughout exactly once, in name order.
   */
  lemma WalkIsComplete(colls: seq<seq<Doc>>, f: Filter, limit: nat, id: string)
    requires limit >= 1 && Collections(colls) && Completed(Walk(colls, f, limit, None))
    requires MatchesThroughout(colls, f, |Walk(colls, f, limit, None)|, id)
    ensures var ids := Returned(Walk(colls, f, limit, None));
            && Increasing(ids)
            && exists k :: 0 <= k < |ids| && ids[k] == id && forall j :: 0 <= j < |ids| && j != k ==> ids[j] != id
  {
    WalkIsIncreasing(colls, f, limit, None);
    WalkCovers(colls, f, limit, None, id);
    var ids := Returned(Walk(colls, f, limit, None));
    var k :| 0 <= k < |ids| && ids[k] == id;
    forall j | 0 <= j < |ids| && j != k ensures ids[j] != id {
      if j < k {
        Asymmetric(ids[j], ids[k]);
      } else {
        Asymmetric(ids[k], ids[j]);
      }
    }
  }
  ghost predicate HasFit(c: seq<Doc>, f: Filter, id: string) {
    exists d :: d in c && d.id == id && Fits(d, f)
  }

  lemma MatchIsFit(c: seq<Doc>, f: Filter, id: string)
    ensures HasMatch(c, f, id) <==> HasFit(c, f, id)
  {
    assert forall d :: Matches(f, d) <==> Fits(d, f);
  }

  /**
   * In the documents' own fields: a completed walk returns each id that fits
   * throughout exactly once, and none that fitted on no page.
   */
  lemma WalkByFields(colls: seq<seq<Doc>>, f: Filter, limit: nat, id: string)
    requires limit >= 1 && Collections(colls) && Completed(Walk(colls, f, limit, None))
    ensures var walk := Walk(colls, f, limit, None);
            var ids := Returned(walk);
            && |walk| <= |colls|
            && ((forall k :: 0 <= k < |walk| ==> HasFit(colls[k], f, id)) ==>
                  exists k :: 0 <= k < |ids| && ids[k] == id && forall j :: 0 <= j < |ids| && j != k ==> ids[j] != id)
            && (id in ids ==> exists k :: 0 <= k < |walk| && HasFit(colls[k], f, id))
  {
    var walk := Walk(colls, f, limit, None);
    hide HasMatch, HasFit, IsCollection, Walk, Returned, Completed;
    WalkIsIncreasing(colls, f, limit, None);
    forall k | 0 <= k < |colls| ensures HasMatch(colls[k], f, id) <==> HasFit(colls[k], f, id) {
      MatchIsFit(colls[k], f, id);
    }
    if forall k :: 0 <= k < |walk| ==> HasFit(colls[k], f, id) {
      WalkIsComplete(colls, f, limit, id);
    }
    if id in Returned(walk) {
      WalkReturnsMatches(colls, f, limit, None, id);
    }
  }

  /** For the vets: each id that is a vet's throughout once, and no id that never was. */
  lemma WalkOfVets(colls: seq<seq<Doc>>, limit: nat, id: string)
    requires limit >= 1 && Collections(colls) && Completed(Walk(colls, Filter(Some("vet"), None), limit, None))
    ensures var walk := Walk(colls, Filter(Some("vet"), None), limit, None);
            var ids := Returned(walk);
            && |walk| <= |colls|
            && ((forall k :: 0 <= k < |walk| ==> IsVet(colls[k], id)) ==>
                  exists k :: 0 <= k < |ids| && ids[k] == id && forall j :: 0 <= j < |ids| && j != k ==> ids[j] != id)
            && (id in ids ==> exists k :: 0 <= k < |walk| && IsVet(colls[k], id))
  {
    var f := Filter(Some("vet"), None);
    WalkByFields(colls, f, limit, id);
    hide Walk, Returned, Completed, IsCollection;
    forall k | 0 <= k < |colls| ensures IsVet(colls[k], id) <==> HasFit(colls[k], f, id) {
    }
  }


  // ---- a collection that stays the same ------------------------------------------------------------

  function Unchanging(c: seq<Doc>, n: nat): (colls: seq<seq<Doc>>)
    ensures |colls| == n && forall k :: 0 <= k < n ==> colls[k] == c
  {
    seq(n, _ => c)
  }

  /** Full pages, then the rest; at least one page. */
  function PagesFor(n: nat, limit: nat): nat
    requires limit >= 1
  {
    if n <= limit then 1 else 1 + PagesFor(n - limit, limit)
  }

  /** That is max(1, ceil(n / limit)): the least positive p with n <= p * limit. */
  lemma {:induction false} PagesAreCeiling(n: nat, limit: nat)
    requires limit >= 1
    ensures var p := PagesFor(n, limit); p >= 1 && n <= p * limit && (p > 1 ==> (p - 1) * limit < n)
  {
    if n > limit {
      PagesAreCeiling(n - limit, limit);
      var p := PagesFor(n - limit, limit);
      assert (p + 1) * limit == p * limit + limit && p * limit == (p - 1) * limit + limit;
    }
  }

  /** On a fixed collection a walk ends after max(1, ceil(n / limit)) pages, having returned all n matches. */
  lemma {:induction false} FixedWalkLength(c: seq<Doc>, f: Filter, limit: nat, after: Option<string>, fetches: nat)
    requires limit >= 1 && IsCollection(c) && Named(c)
    requires fetches >= PagesFor(|Hits(c, f, after)|, limit)
    ensures var walk := Walk(Unchanging(c, fetches), f, limit, after);
            && Completed(walk) && |walk| == PagesFor(|Hits(c, f, after)|, limit)
            && Returned(walk) == Uids(ToUsers(Hits(c, f, after)))
    decreases |Hits(c, f, after)|
  {
    hide *;
    var hits := Hits(c, f, after);
    var page := ListUsers(c, f, limit, after);
    var colls := Unchanging(c, fetches);
    PagesStep(|hits|, limit);
    WalkUnfolds(colls, f, limit, after);
    FirstPage(c, f, limit, after);
    if |hits| > limit {
      NextHits(c, f, limit, after);
      FixedWalkLength(c, f, limit, page.nextCursor, fetches - 1);
      assert colls[1..] == Unchanging(c, fetches - 1);
      CompletedTail(colls, f, limit, after);
      UidsAppend(hits[..limit], hits[limit..]);
      assert hits == hits[..limit] + hits[limit..];
    } else {
      OnePage(colls, f, limit, after);
    }
  }

  lemma PagesStep(n: nat, limit: nat)
    requires limit >= 1
    ensures PagesFor(n, limit) == if n <= limit then 1 else 1 + PagesFor(n - limit, limit)
  {
  }

  lemma OnePage(colls: seq<seq<Doc>>, f: Filter, limit: nat, after: Option<string>)
    requires limit >= 1 && colls != [] && ListUsers(colls[0], f, limit, after).nextCursor == None
    ensures Completed(Walk(colls, f, limit, after))
  {
    hide ListUsers;
  }

  lemma UidsAppend(a: seq<Doc>, b: seq<Doc>)
    ensures Uids(ToUsers(a + b)) == Uids(ToUsers(a)) + Uids(ToUsers(b))
  {
  }

  /** The next page starts right after the first one. */
  lemma NextHits(c: seq<Doc>, f: Filter, limit: nat, after: Option<string>)
    requires limit >= 1 && IsCollection(c) && Named(c) && |Hits(c, f, after)| > limit
    ensures Hits(c, f, Some(Hits(c, f, after)[limit - 1].id)) == Hits(c, f, after)[limit..]
  {
    hide Hits;
    HitsAreTheMatches(c, f, after);
    assert Hits(c, f, after)[limit - 1] in Hits(c, f, after);
    HitsAfterHit(c, f, after, limit - 1);
  }

  lemma FirstPage(c: seq<Doc>, f: Filter, limit: nat, after: Option<string>)
    requires limit >= 1
    ensures var hits, page := Hits(c, f, after), ListUsers(c, f, limit, after);
            && (|hits| <= limit ==> page == Page(ToUsers(hits), None))
            && (|hits| > limit ==> page == Page(ToUsers(hits[..limit]), Some(hits[limit - 1].id)))
  {
    hide Hits;
  }

  lemma CompletedTail(colls: seq<seq<Doc>>, f: Filter, limit: nat, after: Option<string>)
    requires limit >= 1 && colls != [] && ListUsers(colls[0], f, limit, after).nextCursor.Some?
    ensures Completed(Walk(colls[1..], f, limit, ListUsers(colls[0], f, limit, after).nextCursor))
        ==> Completed(Walk(colls, f, limit, after))
  {
    hide ListUsers;
  }
}
