/** The offset-tracked ingest loop of src/ingest.py: get_offset and
    update_offset over the offset file, and the body of fetch_and_publish,
    which publishes the transformed records of one fetched page and then
    moves the offset on by the page size. */
module Ingest {
  import opened Wrappers
  import opened Normalize

  /** LIMIT: the page size requested from the API and the stride of the offset. */
  const Limit: int := 10

  /** The offset file: absent, or a JSON object with or without an "offset" entry. */
  datatype OffsetFile = Absent | Present(offset: Option<int>)

  /** get_offset: the stored offset, or 0 when the file or its entry is missing. */
  function GetOffset(f: OffsetFile): (o: int)
    ensures f.Absent? ==> o == 0
    ensures f.Present? && f.offset.None? ==> o == 0
    ensures f.Present? && f.offset.Some? ==> o == f.offset.value
  {
    if f.Present? && f.offset.Some? then f.offset.value else 0
  }

  /** update_offset: the file is overwritten with `{"offset": o}`, so the next
      get_offset reads back exactly `o`. */
  function UpdateOffset(o: int): (f: OffsetFile)
    ensures GetOffset(f) == o
  {
    Present(Some(o))
  }

  /** The offset file after one pass of the loop that fetched `page`: left
      alone for an empty page, otherwise the old offset plus LIMIT. */
  function NextOffsetFile(f: OffsetFile, page: seq<RawRecord>): (g: OffsetFile)
    ensures page == [] ==> g == f
    ensures page != [] ==> GetOffset(g) == GetOffset(f) + Limit
  {
    if page == [] then f else UpdateOffset(GetOffset(f) + Limit)
  }

  /** The positions below `n` whose publish succeeds, in increasing order. */
  function PublishedPositions(n: nat, publishOk: nat -> bool): (r: seq<nat>)
    ensures forall k :: 0 <= k < |r| ==> r[k] < n && publishOk(r[k])
    ensures forall k, l :: 0 <= k < l < |r| ==> r[k] < r[l]
    ensures forall i: nat {:trigger i in r} :: i < n && publishOk(i) ==> i in r
  {
    if n == 0 then []
    else
      var init := PublishedPositions(n - 1, publishOk);
      if publishOk(n - 1) then init + [n - 1] else init
  }

  /** The messages one page yields: the transformed records whose publish
      succeeds, in page order. Each is the transform of the record at a
      published position. */
  function Delivered(transform: RawRecord -> NormalizedRecord, page: seq<RawRecord>, publishOk: nat -> bool): (r: seq<NormalizedRecord>)
    ensures |r| == |PublishedPositions(|page|, publishOk)|
    ensures forall k :: 0 <= k < |r| ==>
              r[k] == transform(page[PublishedPositions(|page|, publishOk)[k]])
  {
    if page == [] then []
    else
      var n := |page|;
      var init := Delivered(transform, page[..n - 1], publishOk);
      assert forall i :: 0 <= i < n - 1 ==> page[..n - 1][i] == page[i];
      if publishOk(n - 1) then init + [transform(page[n - 1])] else init
  }

  /** One more record of the page: its message is appended when its publish
      succeeds. */
  lemma DeliveredNext(transform: RawRecord -> NormalizedRecord, page: seq<RawRecord>, publishOk: nat -> bool, i: nat)
    requires i < |page|
    ensures Delivered(transform, page[..i + 1], publishOk)
            == Delivered(transform, page[..i], publishOk) + (if publishOk(i) then [transform(page[i])] else [])
  {
    assert page[..i + 1][..i] == page[..i];
  }

  /** The number of non-empty pages in `pages`. */
  function NonEmptyPages(pages: seq<seq<RawRecord>>): nat {
    if pages == [] then 0
    else NonEmptyPages(pages[..|pages| - 1]) + (if pages[|pages| - 1] == [] then 0 else 1)
  }

  /** The messages a run over `pages` yields, page after page. */
  function DeliveredAll(transform: RawRecord -> NormalizedRecord, pages: seq<seq<RawRecord>>, outcomes: seq<nat -> bool>): seq<NormalizedRecord>
    requires |outcomes| == |pages|
  {
    if pages == [] then []
    else
      var n := |pages|;
      DeliveredAll(transform, pages[..n - 1], outcomes[..n - 1])
        + Delivered(transform, pages[n - 1], outcomes[n - 1])
  }

  /** The ingester's state: the offset file and the messages accepted by the topic. */
  class Ingester {
    /** transform_row, with the translation service it calls fixed. */
    const transform: RawRecord -> NormalizedRecord
    /** The offset file on disk. */
    var store: OffsetFile
    /** The messages the topic has accepted, oldest first. */
    var published: seq<NormalizedRecord>

    constructor (translate: string -> Option<string>, store: OffsetFile)
      ensures forall raw :: transform(raw) == TransformRow(translate, raw)
      ensures this.store == store && published == []
    {
      transform := (raw: RawRecord) => TransformRow(translate, raw);
      this.store := store;
      published := [];
    }

    /** One pass of the loop of fetch_and_publish, given the page the API
        returned and which publishes succeed (by position in the page). A
        failed publish is skipped; the offset moves on by LIMIT after any
        non-empty page, whatever its length and whatever failed. */
    method Step(page: seq<RawRecord>, publishOk: nat -> bool)
      modifies this
      ensures published == old(published) + Delivered(transform, page, publishOk)
      ensures store == NextOffsetFile(old(store), page)
    {
      var offset := GetOffset(store);
      if page == [] {
        return;
      }
      PublishPage(page, publishOk);
      store := UpdateOffset(offset + Limit);
    }

    /** The `for record in records` loop: each record is transformed and
        published; a publish that raises is reported and skipped. */
    method PublishPage(page: seq<RawRecord>, publishOk: nat -> bool)
      modifies this
      ensures published == old(published) + Delivered(transform, page, publishOk)
      ensures store == old(store)
    {
      var i := 0;
      while i < |page|
        invariant 0 <= i <= |page|
        invariant store == old(store)
        invariant published == old(published) + Delivered(transform, page[..i], publishOk)
      {
        var transformed := transform(page[i]);
        DeliveredNext(transform, page, publishOk, i);
        if publishOk(i) {
          published := published + [transformed];
        }
        i := i + 1;
      }
      assert page[..|page|] == page;
    }

    /** Successive passes of the loop over the pages the API returned. */
    method Run(pages: seq<seq<RawRecord>>, outcomes: seq<nat -> bool>)
      requires |outcomes| == |pages|
      modifies this
      ensures GetOffset(store) == GetOffset(old(store)) + Limit * NonEmptyPages(pages)
      ensures published == old(published) + DeliveredAll(transform, pages, outcomes)
    {
      ghost var start := GetOffset(store);
      ghost var before := published;
      var k := 0;
      while k < |pages|
        invariant 0 <= k <= |pages|
        invariant GetOffset(store) == start + Limit * NonEmptyPages(pages[..k])
        invariant published == before + DeliveredAll(transform, pages[..k], outcomes[..k])
      {
        ghost var offsetSoFar := GetOffset(store);
        ghost var publishedSoFar := published;
        Step(pages[k], outcomes[k]);
        RunPrefix(transform, pages, outcomes, k);
        RunStepTotals(offsetSoFar, GetOffset(store), start, pages[k], NonEmptyPages(pages[..k]), NonEmptyPages(pages[..k + 1]));
        RunStepPublished(before, publishedSoFar, published,
                         DeliveredAll(transform, pages[..k], outcomes[..k]),
                         Delivered(transform, pages[k], outcomes[k]),
                         DeliveredAll(transform, pages[..k + 1], outcomes[..k + 1]));
        k := k + 1;
      }
      assert pages[..|pages|] == pages;
      assert outcomes[..|outcomes|] == outcomes;
    }
  }

  /** The offset arithmetic of one pass of `Run`, stated over plain values. */
  lemma RunStepTotals(before: int, after: int, start: int, page: seq<RawRecord>, count: nat, count1: nat)
    requires before == start + Limit * count
    requires after == before + (if page == [] then 0 else Limit)
    requires count1 == count + (if page == [] then 0 else 1)
    ensures after == start + Limit * count1
  {
  }

  /** The published-messages bookkeeping of one pass of `Run`, over plain values. */
  lemma RunStepPublished<T>(before: seq<T>, soFar: seq<T>, after: seq<T>, prev: seq<T>, page: seq<T>, next: seq<T>)
    requires soFar == before + prev
    requires after == soFar + page
    requires next == prev + page
    ensures after == before + next
  {
  }

  /** How the run totals grow by one page. */
  lemma RunPrefix(transform: RawRecord -> NormalizedRecord, pages: seq<seq<RawRecord>>, outcomes: seq<nat -> bool>, k: nat)
    requires |outcomes| == |pages| && k < |pages|
    ensures NonEmptyPages(pages[..k + 1]) == NonEmptyPages(pages[..k]) + (if pages[k] == [] then 0 else 1)
    ensures DeliveredAll(transform, pages[..k + 1], outcomes[..k + 1])
         == DeliveredAll(transform, pages[..k], outcomes[..k]) + Delivered(transform, pages[k], outcomes[k])
  {
    assert pages[..k + 1][..k] == pages[..k];
    assert outcomes[..k + 1][..k] == outcomes[..k];
  }

  // ---------------------------------------------------------------------
  // Properties of the offset and of what is published
  // ---------------------------------------------------------------------

  /** The offset never goes down across passes, and moves by exactly LIMIT
      per non-empty page. */
  lemma {:induction false} OffsetNonDecreasing(f: OffsetFile, pages: seq<seq<RawRecord>>, g: OffsetFile)
    requires g == OffsetAfter(f, pages)
    ensures GetOffset(g) == GetOffset(f) + Limit * NonEmptyPages(pages)
    ensures GetOffset(g) >= GetOffset(f)
  {
    if pages != [] {
      var n := |pages|;
      OffsetNonDecreasing(f, pages[..n - 1], OffsetAfter(f, pages[..n - 1]));
    }
  }

  /** The offset file after successive passes over `pages`. */
  function OffsetAfter(f: OffsetFile, pages: seq<seq<RawRecord>>): OffsetFile {
    if pages == [] then f else NextOffsetFile(OffsetAfter(f, pages[..|pages| - 1]), pages[|pages| - 1])
  }

  /** Every record whose publish succeeds is published exactly once, and in
      page order: the published positions are exactly the successful ones. */
  lemma PublishedExactlyOnce(n: nat, publishOk: nat -> bool, i: nat)
    requires i < n
    ensures publishOk(i) <==> i in PublishedPositions(n, publishOk)
    ensures publishOk(i) ==> exists k :: 0 <= k < |PublishedPositions(n, publishOk)|
                                     && PublishedPositions(n, publishOk)[k] == i
  {
  }

  /** When every publish succeeds, the page's records are all published, in order. */
  lemma {:induction false} AllPublished(transform: RawRecord -> NormalizedRecord, page: seq<RawRecord>, publishOk: nat -> bool)
    requires forall i: nat :: i < |page| ==> publishOk(i)
    ensures Delivered(transform, page, publishOk) == Transformed(transform, page)
  {
    AllPositions(|page|, publishOk);
  }

  /** With every publish succeeding, the published positions are 0, 1, ..., n-1. */
  lemma {:induction false} AllPositions(n: nat, publishOk: nat -> bool)
    requires forall i: nat :: i < n ==> publishOk(i)
    ensures |PublishedPositions(n, publishOk)| == n
    ensures forall k :: 0 <= k < n ==> PublishedPositions(n, publishOk)[k] == k
  {
    if n > 0 {
      AllPositions(n - 1, publishOk);
    }
  }

  /** One failed publish in a page of records loses exactly that record: the
      records before and after it are still published, once each and in order,
      and the offset still advances by LIMIT. */
  lemma OneFailure(transform: RawRecord -> NormalizedRecord, page: seq<RawRecord>, publishOk: nat -> bool, j: nat, f: OffsetFile)
    requires j < |page|
    requires forall i: nat :: publishOk(i) <==> i != j
    ensures Delivered(transform, page, publishOk)
         == Transformed(transform, page[..j]) + Transformed(transform, page[j + 1..])
    ensures GetOffset(NextOffsetFile(f, page)) == GetOffset(f) + Limit
  {
    SkipOnePosition(|page|, publishOk, j);
    var d := Delivered(transform, page, publishOk);
    var e := Transformed(transform, page[..j]) + Transformed(transform, page[j + 1..]);
    assert |d| == |e|;
    forall k | 0 <= k < |d|
      ensures d[k] == e[k]
    {
      SkipOneAt(transform, page, j, k, d, e, PublishedPositions(|page|, publishOk));
    }
  }

  /** One element of `OneFailure`, stated over plain values. */
  lemma SkipOneAt(transform: RawRecord -> NormalizedRecord, page: seq<RawRecord>, j: nat, k: nat,
                  d: seq<NormalizedRecord>, e: seq<NormalizedRecord>, ps: seq<nat>)
    requires j < |page| && k < |page| - 1
    requires |ps| == |page| - 1 && ps[k] == (if k < j then k else k + 1) && ps[k] < |page|
    requires |d| == |ps| && d[k] == transform(page[ps[k]])
    requires e == Transformed(transform, page[..j]) + Transformed(transform, page[j + 1..])
    ensures d[k] == e[k]
  {
    if k < j {
      assert e[k] == Transformed(transform, page[..j])[k];
    } else {
      assert e[k] == Transformed(transform, page[j + 1..])[k - j];
    }
  }

  /** The transformed records of a page, in order. */
  function Transformed(transform: RawRecord -> NormalizedRecord, page: seq<RawRecord>): (r: seq<NormalizedRecord>)
    ensures |r| == |page|
    ensures forall i :: 0 <= i < |page| ==> r[i] == transform(page[i])
  {
    seq(|page|, i requires 0 <= i < |page| => transform(page[i]))
  }

  /** With only position `j` failing, the published positions skip just `j`. */
  lemma {:induction false} SkipOnePosition(n: nat, publishOk: nat -> bool, j: nat)
    requires j < n
    requires forall i: nat :: publishOk(i) <==> i != j
    ensures |PublishedPositions(n, publishOk)| == n - 1
    ensures forall k :: 0 <= k < n - 1 ==>
              PublishedPositions(n, publishOk)[k] == (if k < j then k else k + 1)
  {
    var init := PublishedPositions(n - 1, publishOk);
    var r := PublishedPositions(n, publishOk);
    if n - 1 > j {
      SkipOnePosition(n - 1, publishOk, j);
      assert r == init + [n - 1];
      forall k | 0 <= k < n - 1
        ensures r[k] == (if k < j then k else k + 1)
      {
        if k < n - 2 {
          assert r[k] == init[k];
        }
      }
    } else {
      AllPositions(n - 1, publishOk);
      assert r == init;
    }
  }
}
