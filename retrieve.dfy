/** retrieve.go: the `merge` command. It reads the cache, exports it to an
    external database, then fetches, decodes and crops each attraction's
    image and either posts the images as base64 JSON or saves them as JPEG
    files, keeping a list of the ids whose image failed.

    The network, the image libraries and the file system are parameters:
    `fetch` is the body http.Get returns for a url (None when the request
    fails), `decode` is image.Decode, `resizeCrop` the resize to 1200 pixels
    followed by the 3:2 crop, `create` os.Create of a file name and
    `encode` jpeg.Encode of an item. */
module Retrieve {
  import opened GoLib
  import opened Attractions
  import opened Store

  /** A decoded image; only the outcome of the image calls matters here. */
  datatype Img = Img(width: nat, height: nat)

  datatype Downloadable = Downloadable(url: string, id: string, image: seq<byte>, decoded: Option<Img>)

  // ---------------------------------------------------------------------
  // What each stage keeps and what it reports as failed

  /** getUrls: one request per attraction with a url, in order. */
  function Requests(attractions: seq<Attraction>): (ds: seq<Downloadable>)
    ensures |ds| <= |attractions|
  {
    if |attractions| == 0 then []
    else
      var a := attractions[|attractions| - 1];
      Requests(attractions[..|attractions| - 1])
        + (if a.url.valid then [Downloadable(a.url.str, a.id, [], None)] else [])
  }

  /** getUrls: the ids of the attractions without a url, in order. */
  function Unlinked(attractions: seq<Attraction>): seq<string>
  {
    if |attractions| == 0 then []
    else
      var a := attractions[|attractions| - 1];
      Unlinked(attractions[..|attractions| - 1]) + (if a.url.valid then [] else [a.id])
  }

  /** The items a filter keeps, updated by the stage. */
  function Survivors(items: seq<Downloadable>, stage: Stage): (kept: seq<Downloadable>)
    ensures |kept| <= |items|
  {
    if |items| == 0 then []
    else
      Survivors(items[..|items| - 1], stage)
        + (match Step(stage, items[|items| - 1]) case None => [] case Some(d) => [d])
  }

  /** The ids of the items a filter drops, in order. */
  function Failures(items: seq<Downloadable>, stage: Stage): seq<string>
  {
    if |items| == 0 then []
    else
      Failures(items[..|items| - 1], stage)
        + (if Step(stage, items[|items| - 1]).None? then [items[|items| - 1].id] else [])
  }

  /** The three per-item stages, with the outcomes of the calls they make. */
  datatype Stage =
    | DownloadStage(fetch: string -> Option<seq<byte>>)
    | ProcessStage(decode: seq<byte> -> Option<Img>, resizeCrop: Img -> Option<Img>)
    | SaveStage(create: string -> bool, encode: Downloadable -> bool)

  /** What a stage makes of one item: the updated item, or None when it fails. */
  function Step(stage: Stage, d: Downloadable): (r: Option<Downloadable>)
    ensures r.Some? ==> r.value.id == d.id && r.value.url == d.url
  {
    match stage
    case DownloadStage(fetch) => DownloadStep(d, fetch)
    case ProcessStage(decode, resizeCrop) => ProcessStep(d, decode, resizeCrop)
    case SaveStage(create, encode) => SaveStep(d, create, encode)
  }

  /** download: the request succeeds and its body becomes the item's bytes;
      the error of reading the body is not checked. */
  function DownloadStep(d: Downloadable, fetch: string -> Option<seq<byte>>): Option<Downloadable>
  {
    match fetch(d.url)
    case None => None
    case Some(body) => Some(d.(image := body))
  }

  /** process: the bytes decode and the resized image crops. */
  function ProcessStep(d: Downloadable, decode: seq<byte> -> Option<Img>,
                       resizeCrop: Img -> Option<Img>): Option<Downloadable>
  {
    match decode(d.image)
    case None => None
    case Some(img) =>
      match resizeCrop(img)
      case None => None
      case Some(cropped) => Some(d.(decoded := Some(cropped)))
  }

  /** save: the file "<id>.jpg" is created and the JPEG written to it. */
  function SaveStep(d: Downloadable, create: string -> bool, encode: Downloadable -> bool): Option<Downloadable>
  {
    if create(d.id + ".jpg") && encode(d) then Some(d) else None
  }

  // ---------------------------------------------------------------------
  // The slices toDownload and failed

  class Batch {
    /** The backing array of toDownload and its length. */
    var buf: array<Downloadable>
    var size: nat
    var failed: seq<string>

    ghost predicate Valid()
      reads this
    {
      size <= buf.Length
    }

    function Items(): seq<Downloadable>
      reads this, buf
      requires Valid()
    {
      buf[..size]
    }

    constructor()
      ensures Valid() && Items() == [] && failed == [] && fresh(buf)
    {
      buf := new Downloadable[0];
      size := 0;
      failed := [];
    }

    /** Go's append: writes into the spare capacity, or moves the items to
        a larger array when there is none. */
    method Append(d: Downloadable)
      requires Valid()
      modifies this, buf
      ensures Valid() && Items() == old(Items()) + [d] && failed == old(failed)
      ensures buf == old(buf) || fresh(buf)
    {
      if size == buf.Length {
        var grown := new Downloadable[2 * buf.Length + 1];
        forall i | 0 <= i < size {
          grown[i] := buf[i];
        }
        buf := grown;
      }
      buf[size] := d;
      size := size + 1;
    }

    /** getUrls: appends a request for every attraction with a url and the
        id of every other one to failed, keeping what both held. */
    method GetUrls(attractions: seq<Attraction>)
      requires Valid()
      modifies this, buf
      ensures Valid() && Items() == old(Items()) + Requests(attractions)
      ensures failed == old(failed) + Unlinked(attractions)
      ensures buf == old(buf) || fresh(buf)
    {
      for i := 0 to |attractions|
        invariant Valid() && Items() == old(Items()) + Requests(attractions[..i])
        invariant failed == old(failed) + Unlinked(attractions[..i])
        invariant buf == old(buf) || fresh(buf)
      {
        var a := attractions[i];
        UrlsStep(attractions, i);
        if a.url.valid {
          Append(Downloadable(a.url.str, a.id, [], None));
        } else {
          failed := failed + [a.id];
        }
      }
      assert attractions[..|attractions|] == attractions;
    }

    /** The in-place filter of download and process: survivors are written
        back from the front of the same array (`(*toDownload)[:0]`), the
        ids of the others are appended to failed. The write index never
        passes the read index, so no item is overwritten before it is read. */
    method Filter(stage: Stage)
      requires Valid()
      modifies this, buf
      ensures Valid() && buf == old(buf)
      ensures Items() == Survivors(old(Items()), stage)
      ensures failed == old(failed) + Failures(old(Items()), stage)
    {
      var w, dropped := FilterInPlace(buf, size, stage);
      size := w;
      failed := failed + dropped;
    }

    /** download: keeps the items whose request succeeds, with the bytes. */
    method Download(fetch: string -> Option<seq<byte>>)
      requires Valid()
      modifies this, buf
      ensures Valid() && buf == old(buf)
      ensures Items() == Survivors(old(Items()), DownloadStage(fetch))
      ensures failed == old(failed) + Failures(old(Items()), DownloadStage(fetch))
    {
      Filter(DownloadStage(fetch));
    }

    /** process: keeps the items that decode and crop, with the image. */
    method Process(decode: seq<byte> -> Option<Img>, resizeCrop: Img -> Option<Img>)
      requires Valid()
      modifies this, buf
      ensures Valid() && buf == old(buf)
      ensures Items() == Survivors(old(Items()), ProcessStage(decode, resizeCrop))
      ensures failed == old(failed) + Failures(old(Items()), ProcessStage(decode, resizeCrop))
    {
      Filter(ProcessStage(decode, resizeCrop));
    }

    /** save: writes every item to "<id>.jpg"; an item whose file cannot be
        created or written adds its id to failed but stays in the batch. */
    method Save(create: string -> bool, encode: Downloadable -> bool)
      requires Valid()
      modifies this
      ensures Valid() && buf == old(buf) && size == old(size)
      ensures failed == old(failed) + Failures(Items(), SaveStage(create, encode))
    {
      ghost var items := buf[..size];
      for i := 0 to size
        invariant buf == old(buf) && size == old(size)
        invariant failed == old(failed) + Failures(items[..i], SaveStage(create, encode))
      {
        assert items[..i + 1][..i] == items[..i];
        var d := buf[i];
        if !create(d.id + ".jpg") {
          failed := failed + [d.id];
        } else if !encode(d) {
          failed := failed + [d.id];
        }
      }
      assert items[..size] == items;
    }
  }

  /** The loop of download and process over the first n items of the
      backing array: survivors are written back from the front (`new_down
      := (*toDownload)[:0]`), the ids of the others are collected. The write
      index never passes the read index, so no item is overwritten before it
      is read. */
  method FilterInPlace(a: array<Downloadable>, n: nat, stage: Stage) returns (w: nat, dropped: seq<string>)
    requires n <= a.Length
    modifies a
    ensures w <= n
    ensures a[..w] == Survivors(old(a[..n]), stage)
    ensures dropped == Failures(old(a[..n]), stage)
  {
    ghost var items := a[..n];
    w, dropped := 0, [];
    for r := 0 to n
      invariant w <= r
      invariant a[..w] == Survivors(items[..r], stage)
      invariant forall k :: r <= k < n ==> a[k] == items[k]
      invariant dropped == Failures(items[..r], stage)
    {
      var d := a[r];
      FilterStep(items, r, stage);
      var s := Step(stage, d);
      if s.None? {
        dropped := dropped + [d.id];
      } else {
        Put(a, w, s.value);
        w := w + 1;
      }
    }
    assert items[..n] == items;
  }

  /** Writes one kept item behind the ones kept so far. */
  method Put(a: array<Downloadable>, w: nat, v: Downloadable)
    requires w < a.Length
    modifies a
    ensures a[..w + 1] == old(a[..w]) + [v]
    ensures forall k :: w < k < a.Length ==> a[k] == old(a[k])
  {
    a[w] := v;
  }

  // ---------------------------------------------------------------------
  // send

  /** One element of the JSON array send posts. */
  datatype Entry = Entry(id: string, image: string)

  /** The entries for a list of items: id and the base64 of the bytes. */
  function Entries(items: seq<Downloadable>): (es: seq<Entry>)
    ensures |es| == |items|
    ensures forall i :: 0 <= i < |items| ==> es[i].id == items[i].id && es[i].image == Base64Encode(items[i].image)
  {
    seq(|items|, i requires 0 <= i < |items| => Entry(items[i].id, Base64Encode(items[i].image)))
  }

  /** send: builds the JSON entries; marshalling and the POST are not
      modelled, and their failure only prints a message. */
  method Send(downloadables: seq<Downloadable>) returns (entries: seq<Entry>)
    ensures |entries| == |downloadables|
    ensures forall i :: 0 <= i < |downloadables| ==>
      entries[i].id == downloadables[i].id && Base64Decode(entries[i].image) == Some(downloadables[i].image)
    ensures entries == Entries(downloadables)
  {
    entries := [];
    for i := 0 to |downloadables|
      invariant |entries| == i
      invariant forall j :: 0 <= j < i ==>
        entries[j] == Entry(downloadables[j].id, Base64Encode(downloadables[j].image))
      invariant forall j :: 0 <= j < i ==> Base64Decode(entries[j].image) == Some(downloadables[j].image)
    {
      var d := downloadables[i];
      Base64RoundTrip(d.image);
      entries := entries + [Entry(d.id, Base64Encode(d.image))];
    }
  }

  /** Each posted image decodes back to the downloaded bytes: the raw body
      is sent, not the cropped image. */
  lemma SentImagesDecode(items: seq<Downloadable>, i: nat)
    requires i < |items|
    ensures Entries(items)[i].id == items[i].id
    ensures Base64Decode(Entries(items)[i].image) == Some(items[i].image)
  {
    Base64RoundTrip(items[i].image);
  }

  // ---------------------------------------------------------------------
  // The whole pipeline

  datatype Outcome = Outcome(kept: seq<Downloadable>, failed: seq<string>)

  /** toDownload and failed after getUrls, download and process, starting
      from two empty slices. */
  function Pipeline(attractions: seq<Attraction>, fetch: string -> Option<seq<byte>>,
                    decode: seq<byte> -> Option<Img>, resizeCrop: Img -> Option<Img>): Outcome
  {
    var requests := Requests(attractions);
    var downloaded := Survivors(requests, DownloadStage(fetch));
    Outcome(Survivors(downloaded, ProcessStage(decode, resizeCrop)),
            Unlinked(attractions) + Failures(requests, DownloadStage(fetch))
              + Failures(downloaded, ProcessStage(decode, resizeCrop)))
  }

  function Ids(items: seq<Downloadable>): (ids: seq<string>)
    ensures |ids| == |items|
  {
    seq(|items|, i requires 0 <= i < |items| => items[i].id)
  }

  /** The same projection as Ids, over the cached attractions that getUrls
      reads: the conservation lemmas compare the ids of the two element
      types, so both are needed. */
  function AttractionIds(attractions: seq<Attraction>): (ids: seq<string>)
    ensures |ids| == |attractions|
  {
    seq(|attractions|, i requires 0 <= i < |attractions| => attractions[i].id)
  }

  /** getUrls sends every attraction to exactly one of the two slices. */
  lemma {:induction false} RequestsPartition(attractions: seq<Attraction>)
    ensures multiset(Ids(Requests(attractions))) + multiset(Unlinked(attractions)) == multiset(AttractionIds(attractions))
  {
    if |attractions| > 0 {
      RequestsPartition(attractions[..|attractions| - 1]);
      RequestsSnoc(attractions);
    }
  }

  /** The step of RequestsPartition: one more attraction. */
  lemma RequestsSnoc(all: seq<Attraction>)
    requires |all| > 0
    requires var init := all[..|all| - 1];
      multiset(Ids(Requests(init))) + multiset(Unlinked(init)) == multiset(AttractionIds(init))
    ensures multiset(Ids(Requests(all))) + multiset(Unlinked(all)) == multiset(AttractionIds(all))
  {
    var init, a := all[..|all| - 1], all[|all| - 1];
    assert all == init + [a];
    assert AttractionIds(all) == AttractionIds(init) + [a.id];
    if a.url.valid {
      var r := Downloadable(a.url.str, a.id, [], None);
      assert Requests(all) == Requests(init) + [r];
      assert Unlinked(all) == Unlinked(init);
      IdsSnoc(Requests(init), r);
      MultisetsSnoc(Ids(Requests(init)), Unlinked(init), AttractionIds(init), a.id, true);
    } else {
      assert Unlinked(all) == Unlinked(init) + [a.id];
      assert Requests(all) == Requests(init);
      MultisetsSnoc(Ids(Requests(init)), Unlinked(init), AttractionIds(init), a.id, false);
    }
  }

  /** A filter sends every item to exactly one of the survivors and the
      failures, under its own id. */
  lemma {:induction false} FilterPartition(items: seq<Downloadable>, stage: Stage)
    ensures multiset(Ids(Survivors(items, stage))) + multiset(Failures(items, stage)) == multiset(Ids(items))
  {
    if |items| > 0 {
      FilterPartition(items[..|items| - 1], stage);
      PartitionSnoc(items, stage);
    }
  }

  /** The step of FilterPartition: one more item. */
  lemma PartitionSnoc(items: seq<Downloadable>, stage: Stage)
    requires |items| > 0
    requires var init := items[..|items| - 1];
      multiset(Ids(Survivors(init, stage))) + multiset(Failures(init, stage)) == multiset(Ids(init))
    ensures multiset(Ids(Survivors(items, stage))) + multiset(Failures(items, stage)) == multiset(Ids(items))
  {
    var init, d := items[..|items| - 1], items[|items| - 1];
    assert items == init + [d];
    IdsSnoc(init, d);
    var kept := Survivors(init, stage);
    if Step(stage, d).Some? {
      assert Survivors(items, stage) == kept + [Step(stage, d).value];
      assert Failures(items, stage) == Failures(init, stage);
      IdsSnoc(kept, Step(stage, d).value);
      MultisetsSnoc(Ids(kept), Failures(init, stage), Ids(init), d.id, true);
    } else {
      assert Survivors(items, stage) == kept;
      assert Failures(items, stage) == Failures(init, stage) + [d.id];
      MultisetsSnoc(Ids(kept), Failures(init, stage), Ids(init), d.id, false);
    }
  }

  lemma IdsSnoc(items: seq<Downloadable>, d: Downloadable)
    ensures Ids(items + [d]) == Ids(items) + [d.id]
  {
  }

  /** One more element, sent to one of two parts of a whole. */
  lemma MultisetsSnoc<T>(kept: seq<T>, dropped: seq<T>, all: seq<T>, x: T, keep: bool)
    requires multiset(kept) + multiset(dropped) == multiset(all)
    ensures keep ==> multiset(kept + [x]) + multiset(dropped) == multiset(all + [x])
    ensures !keep ==> multiset(kept) + multiset(dropped + [x]) == multiset(all + [x])
  {
  }

  /** One more attraction read by getUrls. */
  lemma UrlsStep(attractions: seq<Attraction>, i: nat)
    requires i < |attractions|
    ensures var a := attractions[i];
      Requests(attractions[..i + 1]) ==
        Requests(attractions[..i]) + (if a.url.valid then [Downloadable(a.url.str, a.id, [], None)] else [])
    ensures var a := attractions[i];
      Unlinked(attractions[..i + 1]) == Unlinked(attractions[..i]) + (if a.url.valid then [] else [a.id])
  {
    assert attractions[..i + 1][..i] == attractions[..i];
  }

  /** One more item read by a filter. */
  lemma FilterStep(items: seq<Downloadable>, r: nat, stage: Stage)
    requires r < |items|
    ensures Step(stage, items[r]).None? ==>
      Survivors(items[..r + 1], stage) == Survivors(items[..r], stage)
      && Failures(items[..r + 1], stage) == Failures(items[..r], stage) + [items[r].id]
    ensures Step(stage, items[r]).Some? ==>
      Survivors(items[..r + 1], stage) == Survivors(items[..r], stage) + [Step(stage, items[r]).value]
      && Failures(items[..r + 1], stage) == Failures(items[..r], stage)
  {
    assert items[..r + 1][..r] == items[..r];
    var kept, failed := Survivors(items[..r], stage), Failures(items[..r], stage);
    if Step(stage, items[r]).None? {
      assert kept + [] == kept;
    } else {
      assert failed + [] == failed;
    }
  }

  /** Survivors and failures of a filter add up to its input. */
  lemma {:induction false} FilterConserves(items: seq<Downloadable>, stage: Stage)
    ensures |Survivors(items, stage)| + |Failures(items, stage)| == |items|
  {
    if |items| > 0 {
      FilterConserves(items[..|items| - 1], stage);
    }
  }

  /** After getUrls, download and process, every cached attraction's id is
      in toDownload or in failed, exactly once. */
  lemma PipelineConserves(attractions: seq<Attraction>, fetch: string -> Option<seq<byte>>,
                          decode: seq<byte> -> Option<Img>, resizeCrop: Img -> Option<Img>)
    ensures var o := Pipeline(attractions, fetch, decode, resizeCrop);
      multiset(Ids(o.kept)) + multiset(o.failed) == multiset(AttractionIds(attractions))
  {
    var requests := Requests(attractions);
    var downloaded := Survivors(requests, DownloadStage(fetch));
    RequestsPartition(attractions);
    FilterPartition(requests, DownloadStage(fetch));
    FilterPartition(downloaded, ProcessStage(decode, resizeCrop));
  }

  /** So the two slices together are as long as the cache. */
  lemma PipelineCount(attractions: seq<Attraction>, fetch: string -> Option<seq<byte>>,
                      decode: seq<byte> -> Option<Img>, resizeCrop: Img -> Option<Img>)
    ensures var o := Pipeline(attractions, fetch, decode, resizeCrop);
      |o.kept| + |o.failed| == |attractions|
  {
    var o := Pipeline(attractions, fetch, decode, resizeCrop);
    PipelineConserves(attractions, fetch, decode, resizeCrop);
    assert |multiset(Ids(o.kept)) + multiset(o.failed)| == |multiset(AttractionIds(attractions))|;
  }

  /** Every item download keeps holds the body fetched from its url. */
  lemma {:induction false} DownloadedHoldBodies(items: seq<Downloadable>, fetch: string -> Option<seq<byte>>)
    ensures forall d :: d in Survivors(items, DownloadStage(fetch)) ==> fetch(d.url) == Some(d.image)
  {
    if |items| > 0 {
      DownloadedHoldBodies(items[..|items| - 1], fetch);
    }
  }

  /** Every item process keeps holds its cropped image, and its bytes
      decode. */
  lemma {:induction false} ProcessedHoldImages(items: seq<Downloadable>, decode: seq<byte> -> Option<Img>,
                                               resizeCrop: Img -> Option<Img>)
    ensures forall d :: d in Survivors(items, ProcessStage(decode, resizeCrop)) ==>
      decode(d.image).Some? && d.decoded == resizeCrop(decode(d.image).value)
  {
    if |items| > 0 {
      ProcessedHoldImages(items[..|items| - 1], decode, resizeCrop);
    }
  }

  /** save reports at most one failure per item. */
  lemma SaveFailuresBounded(items: seq<Downloadable>, create: string -> bool, encode: Downloadable -> bool)
    ensures |Failures(items, SaveStage(create, encode))| <= |items|
  {
    FilterConserves(items, SaveStage(create, encode));
  }

  // ---------------------------------------------------------------------
  // merge

  function FailedMessage(failed: seq<string>): string
  {
    "Finished with " + Itoa(|failed|) + " failed images\n\t" + FormatList(failed)
  }

  function SentMessage(sent: nat, url: string, failed: seq<string>): string
  {
    "Sent " + Itoa(sent) + " images to " + url + ".\n" + FailedMessage(failed)
  }

  /** merge after the cache was read and exported: the image work, then
      either send (with a url in parts[2]) or save. */
  method Transfer(attractions: seq<Attraction>, parts: seq<string>,
                  fetch: string -> Option<seq<byte>>, decode: seq<byte> -> Option<Img>,
                  resizeCrop: Img -> Option<Img>, create: string -> bool, encode: Downloadable -> bool)
    returns (msg: string, posted: Option<seq<Entry>>)
    ensures var o := Pipeline(attractions, fetch, decode, resizeCrop);
      if |parts| > 2 then msg == SentMessage(|o.kept|, parts[2], o.failed) && posted == Some(Entries(o.kept))
      else msg == FailedMessage(o.failed + Failures(o.kept, SaveStage(create, encode))) && posted.None?
  {
    ghost var o := Pipeline(attractions, fetch, decode, resizeCrop);
    ghost var requests := Requests(attractions);
    ghost var downloaded := Survivors(requests, DownloadStage(fetch));
    var batch := new Batch();
    batch.GetUrls(attractions);
    assert batch.Items() == requests && batch.failed == Unlinked(attractions);
    batch.Download(fetch);
    assert batch.Items() == downloaded;
    assert batch.failed == Unlinked(attractions) + Failures(requests, DownloadStage(fetch));
    batch.Process(decode, resizeCrop);
    assert batch.Items() == o.kept && batch.failed == o.failed;
    if |parts| > 2 {
      var items := batch.Items();
      var entries := Send(items);
      return SentMessage(|items|, parts[2], batch.failed), Some(entries);
    }
    batch.Save(create, encode);
    return FailedMessage(batch.failed), None;
  }

  /** merge: `parts` is the command split on spaces, parts[1] the external
      database and parts[2], when present, the url to post the images to.
      Returns the message and the entries posted, if any. */
  method Merge(parts: seq<string>, cache: Cache, ext: ExternalDb, cacheQueryOk: bool,
               openErr: Option<string>, insertErr: Option<string>, deleteOk: bool,
               fetch: string -> Option<seq<byte>>, decode: seq<byte> -> Option<Img>,
               resizeCrop: Img -> Option<Img>, create: string -> bool, encode: Downloadable -> bool)
    returns (msg: string, posted: Option<seq<Entry>>)
    requires |parts| >= 2
    modifies ext
    ensures var read := if cacheQueryOk then CacheContents(cache.destinations, cache.schema)
                        else Err("Failed to read cache");
      match read
      case Err(e) => msg == "Failed to merge: " + e && posted.None? && unchanged(ext)
      case Ok(attractions) =>
        var commitErr := if openErr.Some? then openErr else insertErr;
        var o := Pipeline(attractions, fetch, decode, resizeCrop);
        (if openErr.Some? then ext.destinations == old(ext.destinations)
         else if deleteOk then ext.destinations == []
         else ext.destinations == old(ext.destinations) + (if insertErr.None? then Exported(attractions) else []))
        && (if commitErr.Some? then msg == "Failed to merge: " + commitErr.value && posted.None?
            else if |parts| > 2 then msg == SentMessage(|o.kept|, parts[2], o.failed) && posted == Some(Entries(o.kept))
            else msg == FailedMessage(o.failed + Failures(o.kept, SaveStage(create, encode))) && posted.None?)
  {
    var read := cache.ReadCache(cacheQueryOk);
    if read.Err? {
      return "Failed to merge: " + read.msg, None;
    }
    var err := ext.CommitAttractionsToDB(read.value, openErr, insertErr, deleteOk);
    if err.Some? {
      return "Failed to merge: " + err.value, None;
    }
    msg, posted := Transfer(read.value, parts, fetch, decode, resizeCrop, create, encode);
  }
}
