/** `BidCollection.bulk_insert_bids`: one `UpdateOne(..., upsert=True)` per record,
    keyed on the announcement number and applied in batch order by an ordered
    `bulk_write`, followed by the report the method builds from the write result. */
module BulkUpsert {
  import opened Wrappers
  import opened BidCollection

  // ----- one keyed upsert -----

  /** What one upsert did: stored a new document, or matched (and overwrote) one. */
  datatype Outcome = Created(id: nat) | Matched(id: nat)

  /** Documents `s` had keep their position, id and key in `t`; `t` may have more. */
  predicate Extends(s: Store, t: Store) {
    && |s.docs| <= |t.docs|
    && s.next <= t.next
    && forall j :: 0 <= j < |s.docs| ==> t.docs[j].id == s.docs[j].id && Key(t.docs[j]) == Key(s.docs[j])
  }

  /** The keys present in a store. */
  function StoreKeys(s: Store): set<string> {
    set d | d in s.docs :: Key(d)
  }

  /** `UpdateOne({"announcement_number": k}, {"$set": fields}, upsert=True)`: the first
      document carrying the key gets every field replaced and keeps its `_id`; with
      none, a document of the record's fields is stored under a fresh id. */
  function Upsert(s: Store, bid: BidRecord): (r: (Store, Outcome))
    ensures r.1.Created? <==> !CheckDuplicate(s, bid.announcementNumber)
    ensures r.1.Created? ==> r.1.id == s.next && r.0.docs == s.docs + [Doc(s.next, bid)]
    ensures r.1.Matched? ==> FindBidByAnnouncementNumber(s, bid.announcementNumber).value.id == r.1.id
    ensures FindBidByAnnouncementNumber(r.0, bid.announcementNumber) == Some(Doc(r.1.id, bid))
    ensures Extends(s, r.0)
    ensures Valid(s) ==> Valid(r.0)
    ensures forall j :: 0 <= j < |s.docs| && FirstWithKey(s.docs, bid.announcementNumber) != Some(j) ==>
      r.0.docs[j] == s.docs[j]
  {
    match FirstWithKey(s.docs, bid.announcementNumber)
    case None =>
      var t := Store(s.docs + [Doc(s.next, bid)], s.next + 1);
      FirstWithKeyAt(t.docs, bid.announcementNumber, |s.docs|);
      AppendKeepsIds(s, bid);
      (t, Created(s.next))
    case Some(i) =>
      var t := Store(s.docs[i := Doc(s.docs[i].id, bid)], s.next);
      FirstWithKeyAt(t.docs, bid.announcementNumber, i);
      ReplaceKeepsIds(s, i, bid);
      (t, Matched(s.docs[i].id))
  }

  /** The first position carrying `k` is the one before which no position does. */
  lemma FirstWithKeyAt(docs: seq<Doc>, k: string, p: nat)
    requires p < |docs| && Key(docs[p]) == k
    requires forall j :: 0 <= j < p ==> Key(docs[j]) != k
    ensures FirstWithKey(docs, k) == Some(p)
  {
    assert forall j :: 0 <= j < |docs| && Key(docs[j]) == k ==> j >= p;
  }

  /** Overwriting the fields of one document keeps every id where it was. */
  lemma ReplaceKeepsIds(s: Store, i: nat, bid: BidRecord)
    requires i < |s.docs|
    ensures Valid(s) ==> Valid(Store(s.docs[i := Doc(s.docs[i].id, bid)], s.next))
  {
    var u := s.docs[i := Doc(s.docs[i].id, bid)];
    assert forall j :: 0 <= j < |u| ==> u[j].id == s.docs[j].id;
  }

  /** Appending a document under the next id keeps the ids unique and below `next`. */
  lemma AppendKeepsIds(s: Store, bid: BidRecord)
    ensures Valid(s) ==> Valid(Store(s.docs + [Doc(s.next, bid)], s.next + 1))
  {
    var u := s.docs + [Doc(s.next, bid)];
    assert forall j :: 0 <= j < |s.docs| ==> u[j] == s.docs[j];
  }

  /** Appending a document under another key leaves the first match of `k` alone. */
  lemma {:induction false} FirstWithKeyAppend(docs: seq<Doc>, d: Doc, k: string)
    requires Key(d) != k
    ensures FirstWithKey(docs + [d], k) == FirstWithKey(docs, k)
  {
    if |docs| > 0 {
      assert (docs + [d])[1..] == docs[1..] + [d];
      FirstWithKeyAppend(docs[1..], d, k);
    }
  }

  /** Replacing a document that neither had nor gets key `k` leaves its first match alone. */
  lemma {:induction false} FirstWithKeyReplace(docs: seq<Doc>, i: nat, d: Doc, k: string)
    requires i < |docs| && Key(docs[i]) != k && Key(d) != k
    ensures FirstWithKey(docs[i := d], k) == FirstWithKey(docs, k)
  {
    if i > 0 {
      assert docs[i := d][1..] == docs[1..][i - 1 := d];
      FirstWithKeyReplace(docs[1..], i - 1, d, k);
    }
  }

  /** Documents under other keys are found as before. */
  lemma UpsertOtherKeys(s: Store, bid: BidRecord, k: string)
    requires k != bid.announcementNumber
    ensures FindBidByAnnouncementNumber(Upsert(s, bid).0, k) == FindBidByAnnouncementNumber(s, k)
  {
    var kb := bid.announcementNumber;
    var t := Upsert(s, bid).0;
    match FirstWithKey(s.docs, kb)
    case None =>
      FirstWithKeyAppend(s.docs, Doc(s.next, bid), k);
    case Some(i) =>
      FirstWithKeyReplace(s.docs, i, Doc(s.docs[i].id, bid), k);
      var f := FirstWithKey(s.docs, k);
      assert f.Some? ==> f.value != i && t.docs[f.value] == s.docs[f.value];
  }

  /** Stores whose documents carry the same keys position by position have the same keys. */
  lemma SameKeys(s: Store, t: Store)
    requires |s.docs| == |t.docs|
    requires forall j :: 0 <= j < |s.docs| ==> Key(t.docs[j]) == Key(s.docs[j])
    ensures StoreKeys(s) == StoreKeys(t)
  {
    forall x | x in StoreKeys(s)
      ensures x in StoreKeys(t)
    {
      var d :| d in s.docs && Key(d) == x;
      var j :| 0 <= j < |s.docs| && s.docs[j] == d;
      assert t.docs[j] in t.docs;
    }
    forall x | x in StoreKeys(t)
      ensures x in StoreKeys(s)
    {
      var d :| d in t.docs && Key(d) == x;
      var j :| 0 <= j < |t.docs| && t.docs[j] == d;
      assert s.docs[j] in s.docs;
    }
  }

  /** Appending a document adds its key to the store's keys. */
  lemma AppendKeys(s: Store, d: Doc, n: nat)
    ensures StoreKeys(Store(s.docs + [d], n)) == StoreKeys(s) + {Key(d)}
  {
    var u := s.docs + [d];
    assert forall j :: 0 <= j < |s.docs| ==> u[j] == s.docs[j];
    assert u[|s.docs|] == d;
    forall x | x in StoreKeys(Store(u, n))
      ensures x in StoreKeys(s) + {Key(d)}
    {
      var e :| e in u && Key(e) == x;
      var j :| 0 <= j < |u| && u[j] == e;
      if j < |s.docs| {
        assert s.docs[j] in s.docs;
      }
    }
  }

  /** An upsert adds the record's key to the store's keys and no other. */
  lemma UpsertKeys(s: Store, bid: BidRecord)
    ensures StoreKeys(Upsert(s, bid).0) == StoreKeys(s) + {bid.announcementNumber}
  {
    var t := Upsert(s, bid).0;
    var k := bid.announcementNumber;
    match FirstWithKey(s.docs, k)
    case None =>
      AppendKeys(s, Doc(s.next, bid), s.next + 1);
    case Some(i) =>
      assert t.docs == s.docs[i := Doc(s.docs[i].id, bid)];
      SameKeys(s, t);
      assert s.docs[i] in s.docs;
  }

  // ----- the batch -----

  /** The upserts of a batch in order: the final store and each one's outcome. */
  function UpsertAll(s: Store, batch: seq<BidRecord>): (r: (Store, seq<Outcome>))
    ensures |r.1| == |batch|
    ensures Extends(s, r.0)
    ensures Valid(s) ==> Valid(r.0)
    decreases |batch|
  {
    if |batch| == 0 then (s, [])
    else
      var first := Upsert(s, batch[0]);
      var rest := UpsertAll(first.0, batch[1..]);
      (rest.0, [first.1] + rest.1)
  }

  /** The batch's `announcement_numbers` list, in order and with repeats. */
  function Keys(batch: seq<BidRecord>): (ks: seq<string>)
    ensures |ks| == |batch|
    ensures forall i :: 0 <= i < |batch| ==> ks[i] == batch[i].announcementNumber
  {
    if |batch| == 0 then [] else [batch[0].announcementNumber] + Keys(batch[1..])
  }

  /** The keys the batch gives. */
  function KeySet(batch: seq<BidRecord>): (ks: set<string>)
    ensures forall k :: k in ks <==> k in Keys(batch)
  {
    if |batch| == 0 then {} else {batch[0].announcementNumber} + KeySet(batch[1..])
  }

  /** `result.upserted_count`. */
  function CountCreated(outs: seq<Outcome>): nat {
    if |outs| == 0 then 0 else (if outs[0].Created? then 1 else 0) + CountCreated(outs[1..])
  }

  /** `result.matched_count`. */
  function CountMatched(outs: seq<Outcome>): nat {
    if |outs| == 0 then 0 else (if outs[0].Matched? then 1 else 0) + CountMatched(outs[1..])
  }

  /** `result.upserted_ids.values()`. */
  function CreatedIds(outs: seq<Outcome>): seq<nat> {
    if |outs| == 0 then []
    else (if outs[0].Created? then [outs[0].id] else []) + CreatedIds(outs[1..])
  }

  /** `upserted_announcement_numbers`: each created id looked up with
      `find_one({"_id": id})`, and the key of what it finds. */
  function FoundKeys(docs: seq<Doc>, ids: seq<nat>): set<string> {
    if |ids| == 0 then {}
    else
      var here := match PositionOfId(docs, ids[0]) case Some(p) => {Key(docs[p])} case None => {};
      here + FoundKeys(docs, ids[1..])
  }

  /** `[num for num in announcement_numbers if num not in upserted]`. */
  function Drop(ks: seq<string>, gone: set<string>): seq<string> {
    if |ks| == 0 then []
    else (if ks[0] in gone then [] else [ks[0]]) + Drop(ks[1..], gone)
  }

  /** The returned `(inserted_count, updated_count, updated_list)`. */
  datatype BulkReport = BulkReport(inserted: nat, updated: nat, updatedList: seq<string>)

  /** `bulk_insert_bids`: an empty batch is answered at once; otherwise the upserts run
      and the report counts created and matched documents and lists the batch keys
      that were not created by this call. */
  function BulkInsertBids(s: Store, batch: seq<BidRecord>): (r: (Store, BulkReport))
    ensures Valid(s) ==> Valid(r.0)
    ensures Extends(s, r.0)
  {
    if |batch| == 0 then (s, BulkReport(0, 0, []))
    else
      var (t, outs) := UpsertAll(s, batch);
      var created := FoundKeys(t.docs, CreatedIds(outs));
      (t, BulkReport(CountCreated(outs), CountMatched(outs), Drop(Keys(batch), created)))
  }

  // ----- reference definitions -----

  /** The batch's keys that the store did not have before the call. */
  function NewKeys(s: Store, batch: seq<BidRecord>): set<string> {
    KeySet(batch) - StoreKeys(s)
  }

  /** The record the batch last gives for key `k`, if any. */
  function LastWithKey(batch: seq<BidRecord>, k: string): Option<BidRecord> {
    if |batch| == 0 then None
    else
      match LastWithKey(batch[1..], k)
      case Some(b) => Some(b)
      case None => if batch[0].announcementNumber == k then Some(batch[0]) else None
  }

  /** `xs` is `ys` with some elements left out, the rest in order. */
  predicate IsSubsequence(xs: seq<string>, ys: seq<string>)
    decreases |ys|
  {
    if |xs| == 0 then true
    else if |ys| == 0 then false
    else if xs[0] == ys[0] then IsSubsequence(xs[1..], ys[1..])
    else IsSubsequence(xs, ys[1..])
  }

  // ----- what the call promises -----

  /** A store's document keeps its position, id and key through later upserts, so
      `find_one({"_id": id})` on the final store finds it with its key. */
  lemma ExtendsFinds(s: Store, t: Store, p: nat)
    requires Extends(s, t) && Valid(t) && p < |s.docs|
    ensures PositionOfId(t.docs, s.docs[p].id) == Some(p)
    ensures Key(t.docs[p]) == Key(s.docs[p])
  {
    PositionOfUniqueId(t.docs, p);
  }

  /** The duplicate check asks whether the key is among the store's keys. */
  lemma DuplicateIsStoreKey(s: Store, k: string)
    ensures CheckDuplicate(s, k) <==> k in StoreKeys(s)
  {
    if CheckDuplicate(s, k) {
      var j :| 0 <= j < |s.docs| && Key(s.docs[j]) == k;
      assert s.docs[j] in s.docs;
    }
  }

  /** How one upsert changes the new keys of the rest of the batch: a created key is
      new, a matched key was not. */
  lemma NewKeysStep(s: Store, b: BidRecord, rest: seq<BidRecord>)
    ensures Upsert(s, b).1.Created? ==>
      NewKeys(s, [b] + rest) == NewKeys(Upsert(s, b).0, rest) + {b.announcementNumber} &&
      b.announcementNumber !in NewKeys(Upsert(s, b).0, rest)
    ensures Upsert(s, b).1.Matched? ==> NewKeys(s, [b] + rest) == NewKeys(Upsert(s, b).0, rest)
  {
    assert ([b] + rest)[1..] == rest;
    assert KeySet([b] + rest) == {b.announcementNumber} + KeySet(rest);
    UpsertKeys(s, b);
    DuplicateIsStoreKey(s, b.announcementNumber);
  }

  /** One step of the fold: the outcome list of `[b] + rest`. */
  lemma UpsertAllStep(s: Store, batch: seq<BidRecord>)
    requires |batch| > 0
    ensures UpsertAll(s, batch) ==
      (UpsertAll(Upsert(s, batch[0]).0, batch[1..]).0,
       [Upsert(s, batch[0]).1] + UpsertAll(Upsert(s, batch[0]).0, batch[1..]).1)
    ensures batch == [batch[0]] + batch[1..]
  {
  }

  /** The key `find_one` finds for the id an upsert created, in any later store. */
  lemma CreatedFound(s: Store, b: BidRecord, t: Store, ids: seq<nat>)
    requires Upsert(s, b).1.Created? && Extends(Upsert(s, b).0, t) && Valid(t)
    ensures FoundKeys(t.docs, [Upsert(s, b).1.id] + ids) == {b.announcementNumber} + FoundKeys(t.docs, ids)
  {
    var s1 := Upsert(s, b).0;
    assert s1.docs[|s.docs|] == Doc(s.next, b);
    ExtendsFinds(s1, t, |s.docs|);
    assert ([s.next] + ids)[1..] == ids;
  }

  /** One step of the fold for the looked-up keys. */
  lemma FoundStep(s: Store, b: BidRecord, t: Store, os: seq<Outcome>, rest: seq<BidRecord>)
    requires Extends(Upsert(s, b).0, t) && Valid(t)
    requires FoundKeys(t.docs, CreatedIds(os)) == NewKeys(Upsert(s, b).0, rest)
    ensures FoundKeys(t.docs, CreatedIds([Upsert(s, b).1] + os)) == NewKeys(s, [b] + rest)
  {
    var o := Upsert(s, b).1;
    assert ([o] + os)[1..] == os;
    NewKeysStep(s, b, rest);
    if o.Created? {
      assert CreatedIds([o] + os) == [o.id] + CreatedIds(os);
      CreatedFound(s, b, t, CreatedIds(os));
    } else {
      assert CreatedIds([o] + os) == CreatedIds(os);
    }
  }

  /** The keys the call looks up through its created ids are exactly the batch keys
      the store did not have. */
  lemma {:induction false} FoundKeysAreNew(s: Store, batch: seq<BidRecord>)
    requires Valid(s)
    ensures FoundKeys(UpsertAll(s, batch).0.docs, CreatedIds(UpsertAll(s, batch).1)) == NewKeys(s, batch)
    decreases |batch|
  {
    if |batch| > 0 {
      var (s1, o) := Upsert(s, batch[0]);
      var (t, os) := UpsertAll(s1, batch[1..]);
      UpsertAllStep(s, batch);
      FoundKeysAreNew(s1, batch[1..]);
      FoundStep(s, batch[0], t, os, batch[1..]);
    }
  }

  /** Each upsert either creates or matches. */
  lemma {:induction false} CountsAddUp(outs: seq<Outcome>)
    ensures CountCreated(outs) + CountMatched(outs) == |outs|
  {
    if |outs| > 0 {
      CountsAddUp(outs[1..]);
    }
  }

  /** One document is created per new key, however often the batch repeats it. */
  lemma {:induction false} CreatedPerNewKey(s: Store, batch: seq<BidRecord>)
    ensures CountCreated(UpsertAll(s, batch).1) == |NewKeys(s, batch)|
    ensures |UpsertAll(s, batch).0.docs| == |s.docs| + |NewKeys(s, batch)|
    decreases |batch|
  {
    if |batch| > 0 {
      var b := batch[0];
      var (s1, o) := Upsert(s, b);
      var (t, os) := UpsertAll(s1, batch[1..]);
      UpsertAllStep(s, batch);
      CreatedPerNewKey(s1, batch[1..]);
      NewKeysStep(s, b, batch[1..]);
      assert ([o] + os)[1..] == os;
    }
  }

  /** The report: counts that add up to the batch length, one insert per new key, the
      store growing by the inserts, and an updated list that is the batch keys without
      the new ones. */
  lemma BulkReportShape(s: Store, batch: seq<BidRecord>)
    requires Valid(s) && |batch| > 0
    ensures BulkInsertBids(s, batch).1.inserted + BulkInsertBids(s, batch).1.updated == |batch|
    ensures BulkInsertBids(s, batch).1.inserted == |NewKeys(s, batch)|
    ensures |BulkInsertBids(s, batch).0.docs| == |s.docs| + BulkInsertBids(s, batch).1.inserted
    ensures BulkInsertBids(s, batch).1.updatedList == Drop(Keys(batch), NewKeys(s, batch))
  {
    CountsAddUp(UpsertAll(s, batch).1);
    CreatedPerNewKey(s, batch);
    FoundKeysAreNew(s, batch);
  }

  /** An empty batch changes nothing and reports nothing. */
  lemma BulkEmpty(s: Store)
    ensures BulkInsertBids(s, []) == (s, BulkReport(0, 0, []))
  {
  }

  /** Dropping keys leaves a subsequence. */
  lemma {:induction false} DropIsSubsequence(ks: seq<string>, gone: set<string>)
    ensures IsSubsequence(Drop(ks, gone), ks)
    ensures forall k :: k in Drop(ks, gone) <==> k in ks && k !in gone
  {
    if |ks| > 0 {
      DropIsSubsequence(ks[1..], gone);
      var rest := Drop(ks[1..], gone);
      if ks[0] !in gone {
        assert Drop(ks, gone) == [ks[0]] + rest;
        assert Drop(ks, gone)[1..] == rest;
      } else {
        assert Drop(ks, gone) == rest;
        SubsequenceOfTail(rest, ks);
      }
    }
  }

  /** A subsequence of the tail is a subsequence of the whole. */
  lemma {:induction false} SubsequenceOfTail(xs: seq<string>, ys: seq<string>)
    requires |ys| > 0 && IsSubsequence(xs, ys[1..])
    ensures IsSubsequence(xs, ys)
    decreases |ys|, 0
  {
    if |xs| > 0 && xs[0] == ys[0] {
      SubsequenceDropHead(xs, ys[1..]);
    }
  }

  /** Leaving out the first element of a subsequence keeps it a subsequence. */
  lemma {:induction false} SubsequenceDropHead(xs: seq<string>, zs: seq<string>)
    requires |xs| > 0 && IsSubsequence(xs, zs)
    ensures IsSubsequence(xs[1..], zs)
    decreases |zs|, 1
  {
    if xs[0] == zs[0] {
      SubsequenceOfTail(xs[1..], zs);
    } else {
      SubsequenceDropHead(xs, zs[1..]);
      SubsequenceOfTail(xs[1..], zs);
    }
  }

  /** The updated list keeps the batch's order, repeats included, and holds exactly the
      batch keys the store already had. */
  lemma UpdatedListIsOldKeys(s: Store, batch: seq<BidRecord>)
    requires Valid(s)
    ensures IsSubsequence(BulkInsertBids(s, batch).1.updatedList, Keys(batch))
    ensures forall k :: k in BulkInsertBids(s, batch).1.updatedList <==> k in Keys(batch) && k in StoreKeys(s)
  {
    if |batch| > 0 {
      BulkReportShape(s, batch);
      DropIsSubsequence(Keys(batch), NewKeys(s, batch));
    }
  }

  /** Uploading again a batch whose keys are all stored inserts nothing, counts every
      record as updated, and lists every key in batch order. */
  lemma ReUpload(s: Store, batch: seq<BidRecord>)
    requires Valid(s)
    requires forall i :: 0 <= i < |batch| ==> CheckDuplicate(s, batch[i].announcementNumber)
    ensures BulkInsertBids(s, batch).1 == BulkReport(0, |batch|, Keys(batch))
  {
    if |batch| > 0 {
      AllStored(s, batch);
      BulkReportShape(s, batch);
      DropNothing(Keys(batch), NewKeys(s, batch));
    }
  }

  /** Keys that all pass the duplicate check are all among the store's keys. */
  lemma {:induction false} AllStored(s: Store, batch: seq<BidRecord>)
    requires forall i :: 0 <= i < |batch| ==> CheckDuplicate(s, batch[i].announcementNumber)
    ensures KeySet(batch) <= StoreKeys(s)
  {
    if |batch| > 0 {
      DuplicateIsStoreKey(s, batch[0].announcementNumber);
      AllStored(s, batch[1..]);
    }
  }

  lemma {:induction false} DropNothing(ks: seq<string>, gone: set<string>)
    requires gone == {}
    ensures Drop(ks, gone) == ks
  {
    if |ks| > 0 {
      DropNothing(ks[1..], gone);
    }
  }

  /** A key new to the store and given twice in one batch: one document is created and
      the second record matches it, so `updated_count` is 1 while `updated_list` is
      empty. */
  lemma NewKeyTwice(s: Store, a: BidRecord, b: BidRecord)
    requires Valid(s) && a.announcementNumber == b.announcementNumber
    requires !CheckDuplicate(s, a.announcementNumber)
    ensures BulkInsertBids(s, [a, b]).1 == BulkReport(1, 1, [])
    ensures FindBidByAnnouncementNumber(BulkInsertBids(s, [a, b]).0, a.announcementNumber) == Some(Doc(s.next, b))
  {
    var k := a.announcementNumber;
    var s1 := Upsert(s, a).0;
    var s2 := Upsert(s1, b).0;
    SecondMatchesFirst(s, a, b);
    UpsertPair(s, a, b);
    CreatedThenMatched(s.next);
    var outs := [Created(s.next), Matched(s.next)];
    assert UpsertAll(s, [a, b]) == (s2, outs);
    CreatedFound(s, a, s2, []);
    assert [s.next] + [] == [s.next];
    assert FoundKeys(s2.docs, []) == {};
    assert FoundKeys(s2.docs, CreatedIds(outs)) == {k};
    TwiceDropped(a, b);
    assert BulkInsertBids(s, [a, b]) == (s2, BulkReport(1, 1, []));
    assert FindBidByAnnouncementNumber(s2, k) == Some(Doc(s.next, b));
  }

  /** The counts and created ids of a create followed by a match. */
  lemma CreatedThenMatched(n: nat)
    ensures CountCreated([Created(n), Matched(n)]) == 1
    ensures CountMatched([Created(n), Matched(n)]) == 1
    ensures CreatedIds([Created(n), Matched(n)]) == [n]
  {
    var outs := [Created(n), Matched(n)];
    var last := [Matched(n)];
    assert outs[0] == Created(n) && outs[1..] == last;
    assert last[0] == Matched(n) && last[1..] == [];
    assert CountCreated(last) == 0 && CountMatched(last) == 1 && CreatedIds(last) == [];
    assert CreatedIds(outs) == [n] + CreatedIds(last);
  }

  /** Dropping a key from a batch that gives only that key leaves nothing. */
  lemma TwiceDropped(a: BidRecord, b: BidRecord)
    requires a.announcementNumber == b.announcementNumber
    ensures Drop(Keys([a, b]), {a.announcementNumber}) == []
  {
    var k := a.announcementNumber;
    var ks := [k, k];
    var last := [k];
    assert ks[0] == k && ks[1..] == last && last[0] == k && last[1..] == [];
    assert Drop(last, {k}) == [] + Drop([], {k});
    assert Keys([b]) == [k] by {
      assert [b][0] == b && [b][1..] == [];
    }
    assert Keys([a, b]) == ks by {
      assert [a, b][0] == a && [a, b][1..] == [b];
    }
  }

  /** The two upserts of a key the store lacks: the first creates, the second matches
      what the first created. */
  lemma SecondMatchesFirst(s: Store, a: BidRecord, b: BidRecord)
    requires a.announcementNumber == b.announcementNumber
    requires !CheckDuplicate(s, a.announcementNumber)
    ensures Upsert(s, a).1 == Created(s.next)
    ensures Upsert(Upsert(s, a).0, b).1 == Matched(s.next)
  {
    var s1 := Upsert(s, a).0;
    assert Key(s1.docs[|s.docs|]) == a.announcementNumber;
  }

  /** The fold over a batch of two. */
  lemma UpsertPair(s: Store, a: BidRecord, b: BidRecord)
    ensures UpsertAll(s, [a, b]) ==
      (Upsert(Upsert(s, a).0, b).0, [Upsert(s, a).1, Upsert(Upsert(s, a).0, b).1])
  {
    var s1 := Upsert(s, a).0;
    UpsertOne(s1, b);
    UpsertAllStep(s, [a, b]);
    assert [a, b][0] == a && [a, b][1..] == [b];
    assert [Upsert(s, a).1] + [Upsert(s1, b).1] == [Upsert(s, a).1, Upsert(s1, b).1];
  }

  /** The fold over a batch of one. */
  lemma UpsertOne(s: Store, b: BidRecord)
    ensures UpsertAll(s, [b]) == (Upsert(s, b).0, [Upsert(s, b).1])
  {
    UpsertAllStep(s, [b]);
    assert [b][0] == b && [b][1..] == [];
    var s1 := Upsert(s, b).0;
    assert UpsertAll(s1, []) == (s1, []);
    assert [Upsert(s, b).1] + UpsertAll(s1, []).1 == [Upsert(s, b).1];
  }

  /** Last write wins: after the call, a find by a batch key returns the last record the
      batch gives for it; a key the store had keeps its document's id; keys outside the
      batch are found as before. */
  lemma {:induction false} LastWriteWins(s: Store, batch: seq<BidRecord>, k: string)
    decreases |batch|
    ensures LastWithKey(batch, k).None? ==>
      FindBidByAnnouncementNumber(UpsertAll(s, batch).0, k) == FindBidByAnnouncementNumber(s, k)
    ensures LastWithKey(batch, k).Some? ==>
      FindBidByAnnouncementNumber(UpsertAll(s, batch).0, k).Some? &&
      FindBidByAnnouncementNumber(UpsertAll(s, batch).0, k).value.bid == LastWithKey(batch, k).value
    ensures FindBidByAnnouncementNumber(s, k).Some? ==>
      FindBidByAnnouncementNumber(UpsertAll(s, batch).0, k).Some? &&
      FindBidByAnnouncementNumber(UpsertAll(s, batch).0, k).value.id == FindBidByAnnouncementNumber(s, k).value.id
  {
    if |batch| > 0 {
      var b := batch[0];
      var s1 := Upsert(s, b).0;
      LastWriteWins(s1, batch[1..], k);
      if b.announcementNumber != k {
        UpsertOtherKeys(s, b, k);
      }
    }
  }

  /** The same for the whole call. */
  lemma BulkLastWriteWins(s: Store, batch: seq<BidRecord>, k: string)
    ensures LastWithKey(batch, k).None? ==>
      FindBidByAnnouncementNumber(BulkInsertBids(s, batch).0, k) == FindBidByAnnouncementNumber(s, k)
    ensures LastWithKey(batch, k).Some? ==>
      FindBidByAnnouncementNumber(BulkInsertBids(s, batch).0, k).Some? &&
      FindBidByAnnouncementNumber(BulkInsertBids(s, batch).0, k).value.bid == LastWithKey(batch, k).value
    ensures FindBidByAnnouncementNumber(s, k).Some? ==>
      FindBidByAnnouncementNumber(BulkInsertBids(s, batch).0, k).Some? &&
      FindBidByAnnouncementNumber(BulkInsertBids(s, batch).0, k).value.id == FindBidByAnnouncementNumber(s, k).value.id
  {
    LastWriteWins(s, batch, k);
  }
}
