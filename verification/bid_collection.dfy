/** The `bid` collection behind `BidCollection`: an ordered sequence of documents
    (the order MongoDB returns them in when no sort is given), each an id and the
    nineteen bid fields. Every call of the class becomes a function from the store
    to a new store and the call's result; the database round trips are the
    functions' bodies. The bulk upsert lives in module BulkUpsert. */
module BidCollection {
  import opened Wrappers
  import Numbers
  import Strptime
  import opened ObjectIds

  // ----- documents -----

  /** The stored fields of a bid, everything but `_id`, typed as the request model
      types them (`type` is renamed `kind`). */
  datatype BidRecord = BidRecord(
    number: Option<Numbers.Float>,
    kind: string,
    participationDeadline: Option<int>,
    bidDeadline: Strptime.DateTime,
    bidDate: Strptime.DateTime,
    orderingAgency: string,
    announcementName: string,
    announcementNumber: string,
    industry: string,
    region: string,
    estimatedPrice: int,
    baseAmount: int,
    firstPlaceCompany: string,
    winningBidAmount: int,
    expectedPrice: int,
    expectedAdjustment: Numbers.Float,
    baseToWinningRatio: Numbers.Float,
    expectedToWinningRatio: Numbers.Float,
    estimatedToWinningRatio: Numbers.Float)

  datatype Doc = Doc(id: nat, bid: BidRecord)

  /** The documents in natural order, and the next id the store hands out. */
  datatype Store = Store(docs: seq<Doc>, next: nat)

  /** The announcement number: the key of duplicate checks and upserts. The index on
      it is not unique, so several documents may share one. */
  function Key(d: Doc): string {
    d.bid.announcementNumber
  }

  predicate IdsBelow(docs: seq<Doc>, n: nat) {
    forall j :: 0 <= j < |docs| ==> docs[j].id < n
  }

  predicate DistinctIds(docs: seq<Doc>) {
    forall i, j :: 0 <= i < j < |docs| ==> docs[i].id != docs[j].id
  }

  /** `_id` is unique, and every id in use was handed out before `next`. */
  predicate Valid(s: Store) {
    IdsBelow(s.docs, s.next) && DistinctIds(s.docs)
  }

  const EmptyStore: Store := Store([], 0)

  // ----- lookups -----

  /** The position `find_one({"announcement_number": k})` returns: the first in
      natural order. */
  function FirstWithKey(docs: seq<Doc>, k: string): (r: Option<nat>)
    ensures r.Some? ==> r.value < |docs| && Key(docs[r.value]) == k
    ensures r.Some? ==> forall j :: 0 <= j < r.value ==> Key(docs[j]) != k
    ensures r.None? <==> forall j :: 0 <= j < |docs| ==> Key(docs[j]) != k
  {
    if |docs| == 0 then None
    else if Key(docs[0]) == k then Some(0)
    else
      match FirstWithKey(docs[1..], k)
      case None => None
      case Some(i) => Some(i + 1)
  }

  /** The position `find_one({"_id": id})` returns. */
  function PositionOfId(docs: seq<Doc>, id: nat): (r: Option<nat>)
    ensures r.Some? ==> r.value < |docs| && docs[r.value].id == id
    ensures r.Some? ==> forall j :: 0 <= j < r.value ==> docs[j].id != id
    ensures r.None? <==> forall j :: 0 <= j < |docs| ==> docs[j].id != id
  {
    if |docs| == 0 then None
    else if docs[0].id == id then Some(0)
    else
      match PositionOfId(docs[1..], id)
      case None => None
      case Some(i) => Some(i + 1)
  }

  /** With unique ids, the position of an id is the only one holding it. */
  lemma PositionOfUniqueId(docs: seq<Doc>, p: nat)
    requires DistinctIds(docs) && p < |docs|
    ensures PositionOfId(docs, docs[p].id) == Some(p)
  {
    assert forall j :: 0 <= j < |docs| && docs[j].id == docs[p].id ==> j == p;
  }

  /** `count_documents({"announcement_number": k})`. */
  function CountKey(docs: seq<Doc>, k: string): (n: nat)
    ensures n <= |docs|
    ensures n > 0 <==> exists j :: 0 <= j < |docs| && Key(docs[j]) == k
  {
    if |docs| == 0 then 0
    else
      var rest := CountKey(docs[1..], k);
      assert forall j :: 1 <= j < |docs| ==> docs[j] == docs[1..][j - 1];
      (if Key(docs[0]) == k then 1 else 0) + rest
  }

  /** A key appended to the store adds one to its count. */
  lemma {:induction false} CountKeyAppend(docs: seq<Doc>, d: Doc, k: string)
    ensures CountKey(docs + [d], k) == CountKey(docs, k) + (if Key(d) == k then 1 else 0)
  {
    if |docs| > 0 {
      assert (docs + [d])[1..] == docs[1..] + [d];
      CountKeyAppend(docs[1..], d, k);
    }
  }

  // ----- the calls -----

  /** `insert_bid`: the record is stored, unchecked, under a fresh id that comes back. */
  function InsertBid(s: Store, bid: BidRecord): (r: (Store, nat))
    ensures r.0.docs == s.docs + [Doc(r.1, bid)]
    ensures Valid(s) ==> Valid(r.0) && PositionOfId(s.docs, r.1).None?
  {
    (Store(s.docs + [Doc(s.next, bid)], s.next + 1), s.next)
  }

  /** `check_duplicate_by_announcement_number`: some document carries the key. */
  function CheckDuplicate(s: Store, k: string): (r: bool)
    ensures r <==> exists j :: 0 <= j < |s.docs| && Key(s.docs[j]) == k
  {
    CountKey(s.docs, k) > 0
  }

  /** `find_bid_by_announcement_number`: the first document carrying the key. */
  function FindBidByAnnouncementNumber(s: Store, k: string): (r: Option<Doc>)
    ensures r.Some? ==> Key(r.value) == k && r.value in s.docs
    ensures r.None? <==> forall j :: 0 <= j < |s.docs| ==> Key(s.docs[j]) != k
  {
    match FirstWithKey(s.docs, k)
    case None => None
    case Some(i) => Some(s.docs[i])
  }

  /** `find_bid_by_id`: a malformed id text and an unknown id both give `None`. */
  function FindBidById(s: Store, text: string): (r: Option<Doc>)
    ensures r.Some? ==> r.value in s.docs && ParseObjectId(text) == Some(r.value.id)
    ensures r.None? <==>
      ParseObjectId(text).None? ||
      forall j :: 0 <= j < |s.docs| ==> s.docs[j].id != ParseObjectId(text).value
  {
    match ParseObjectId(text)
    case None => None
    case Some(id) =>
      match PositionOfId(s.docs, id)
      case None => None
      case Some(i) => Some(s.docs[i])
  }

  /** `update_bid`: every field but `_id` of the document with that id is set to the
      record's; the answer is `modified_count > 0`, so it is false for a malformed or
      unknown id and also when the record equals what is stored. */
  function UpdateBid(s: Store, text: string, bid: BidRecord): (r: (Store, bool))
    ensures r.1 <==> FindBidById(s, text).Some? && FindBidById(s, text).value.bid != bid
    ensures !r.1 ==> r.0 == s
    ensures r.0.next == s.next && |r.0.docs| == |s.docs|
    ensures forall j :: 0 <= j < |s.docs| ==> r.0.docs[j].id == s.docs[j].id
  {
    match ParseObjectId(text)
    case None => (s, false)
    case Some(id) =>
      match PositionOfId(s.docs, id)
      case None => (s, false)
      case Some(i) =>
        var found := s.docs[i];
        (Store(s.docs[i := Doc(found.id, bid)], s.next), found.bid != bid)
  }

  /** `delete_bid`: removes the document with that id; `deleted_count > 0`. */
  function DeleteBid(s: Store, text: string): (r: (Store, bool))
    ensures r.1 <==>
      ParseObjectId(text).Some? &&
      exists j :: 0 <= j < |s.docs| && s.docs[j].id == ParseObjectId(text).value
    ensures !r.1 ==> r.0 == s
    ensures r.1 ==> |r.0.docs| == |s.docs| - 1
    ensures r.1 ==> exists i :: 0 <= i < |s.docs| && s.docs[i].id == ParseObjectId(text).value && r.0.docs == Without(s.docs, i)
    ensures r.0.next == s.next && multiset(r.0.docs) <= multiset(s.docs)
  {
    match ParseObjectId(text)
    case None => (s, false)
    case Some(id) =>
      match PositionOfId(s.docs, id)
      case None => (s, false)
      case Some(i) =>
        assert s.docs == s.docs[..i] + [s.docs[i]] + s.docs[i + 1..];
        (Store(Without(s.docs, i), s.next), true)
  }

  /** The documents with the one at position `i` removed, the rest in order. */
  function Without(docs: seq<Doc>, i: nat): seq<Doc>
    requires i < |docs|
  {
    docs[..i] + docs[i + 1..]
  }

  /** `count_all_bids`: `count_documents({})`. */
  function CountAllBids(s: Store): nat {
    |s.docs|
  }

  /** What `skip`, `limit` and `to_list` reject: the driver raises ValueError for a
      negative skip or a negative list length. */
  datatype PageError = NegativeSkip | NegativeLength

  /** `find_all_bids(skip, limit)`: the documents after the first `skip`, at most
      `limit` of them, in natural order. */
  function FindAllBids(s: Store, skip: int, limit: int): (r: Result<seq<Doc>, PageError>)
    ensures r.Err? <==> skip < 0 || limit < 0
    ensures r.Ok? ==> |r.value| <= limit
    ensures r.Ok? && skip <= |s.docs| ==> r.value <= s.docs[skip..]
    ensures r.Ok? ==> |r.value| == if skip >= |s.docs| then 0 else Min(limit, |s.docs| - skip)
  {
    if skip < 0 then Err(NegativeSkip)
    else if limit < 0 then Err(NegativeLength)
    else
      var from := if skip < |s.docs| then skip else |s.docs|;
      var to := if limit < |s.docs| - from then from + limit else |s.docs|;
      Ok(s.docs[from..to])
  }

  function Min(a: int, b: int): int {
    if a < b then a else b
  }

  // ----- what the calls promise -----

  /** An inserted bid is found again by the text of the id `insert_bid` returned. */
  lemma InsertThenFind(s: Store, bid: BidRecord)
    requires Valid(s) && s.next < IdSpace()
    ensures FindBidById(InsertBid(s, bid).0, IdText(InsertBid(s, bid).1)) == Some(Doc(s.next, bid))
  {
    var (t, id) := InsertBid(s, bid);
    IdTextRoundTrip(id);
    PositionOfUniqueId(t.docs, |s.docs|);
  }

  /** `insert_bid` does not reject a duplicate key: the key's count grows by one and
      the duplicate check holds afterwards. */
  lemma InsertKeepsDuplicates(s: Store, bid: BidRecord)
    ensures CountKey(InsertBid(s, bid).0.docs, bid.announcementNumber) == CountKey(s.docs, bid.announcementNumber) + 1
    ensures CheckDuplicate(InsertBid(s, bid).0, bid.announcementNumber)
    ensures CountAllBids(InsertBid(s, bid).0) == CountAllBids(s) + 1
  {
    CountKeyAppend(s.docs, Doc(s.next, bid), bid.announcementNumber);
  }

  /** The duplicate check holds exactly when a find by the same key returns a document. */
  lemma DuplicateIffFound(s: Store, k: string)
    ensures CheckDuplicate(s, k) <==> FindBidByAnnouncementNumber(s, k).Some?
  {
  }

  /** After an update that found its document, a find by the same id returns the
      document with the same id and the new fields; every other document is as it was. */
  lemma UpdateThenFind(s: Store, text: string, bid: BidRecord, p: nat)
    requires Valid(s) && p < |s.docs| && ParseObjectId(text) == Some(s.docs[p].id)
    ensures FindBidById(UpdateBid(s, text, bid).0, text) == Some(Doc(s.docs[p].id, bid))
    ensures forall j :: 0 <= j < |s.docs| && j != p ==> UpdateBid(s, text, bid).0.docs[j] == s.docs[j]
    ensures Valid(UpdateBid(s, text, bid).0)
  {
    PositionOfUniqueId(s.docs, p);
    var t := UpdateBid(s, text, bid).0;
    assert t.docs == s.docs[p := Doc(s.docs[p].id, bid)];
    assert DistinctIds(t.docs);
    PositionOfUniqueId(t.docs, p);
  }

  /** The documents without position `i`, read position by position. */
  lemma RemoveAt(docs: seq<Doc>, i: nat)
    requires i < |docs|
    ensures |Without(docs, i)| == |docs| - 1
    ensures forall j :: 0 <= j < i ==> Without(docs, i)[j] == docs[j]
    ensures forall j :: i <= j < |docs| - 1 ==> Without(docs, i)[j] == docs[j + 1]
  {
  }

  /** Removing one document keeps the ids unique and below `next`, and drops its id. */
  lemma RemoveKeepsValid(s: Store, i: nat)
    requires Valid(s) && i < |s.docs|
    ensures Valid(Store(Without(s.docs, i), s.next))
    ensures forall j :: 0 <= j < |s.docs| - 1 ==> Without(s.docs, i)[j].id != s.docs[i].id
  {
    var u := Without(s.docs, i);
    RemoveAt(s.docs, i);
    forall a, c | 0 <= a < c < |u|
      ensures u[a].id != u[c].id
    {
      var a' := if a < i then a else a + 1;
      var c' := if c < i then c else c + 1;
      assert u[a] == s.docs[a'] && u[c] == s.docs[c'];
    }
    forall j | 0 <= j < |u|
      ensures u[j].id != s.docs[i].id
    {
      var j' := if j < i then j else j + 1;
      assert u[j] == s.docs[j'];
    }
  }

  /** Deleting by an id removes exactly that document: a find by the id returns
      `None` afterwards, and a second delete returns false. */
  lemma DeleteThenGone(s: Store, text: string)
    requires Valid(s)
    ensures Valid(DeleteBid(s, text).0)
    ensures FindBidById(DeleteBid(s, text).0, text).None?
    ensures !DeleteBid(DeleteBid(s, text).0, text).1
  {
    var (t, b) := DeleteBid(s, text);
    if b {
      var id := ParseObjectId(text).value;
      var i := PositionOfId(s.docs, id).value;
      RemoveKeepsValid(s, i);
    }
  }

  /** Consecutive pages concatenate to one longer page. */
  lemma PagesConcat(s: Store, skip: nat, a: nat, b: nat)
    ensures FindAllBids(s, skip, a + b).Ok?
    ensures FindAllBids(s, skip, a + b).value ==
      FindAllBids(s, skip, a).value + FindAllBids(s, skip + a, b).value
  {
    var n := |s.docs|;
    var from := if skip < n then skip else n;
    var mid := if a < n - from then from + a else n;
    var to := if a + b < n - from then from + a + b else n;
    assert FindAllBids(s, skip, a + b).value == s.docs[from..to];
    assert FindAllBids(s, skip, a).value == s.docs[from..mid];
    assert FindAllBids(s, skip + a, b).value == s.docs[mid..to];
    assert s.docs[from..to] == s.docs[from..mid] + s.docs[mid..to];
  }

  /** Paging from the start with a large enough limit lists the whole store. */
  lemma FirstPageIsAll(s: Store, limit: nat)
    requires limit >= |s.docs|
    ensures FindAllBids(s, 0, limit) == Ok(s.docs)
  {
    assert s.docs[0..|s.docs|] == s.docs;
  }
}
