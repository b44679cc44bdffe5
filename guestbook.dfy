/** The guestbook of the seventh backend. The list of entries lives in a JSON file that every
    handler reads whole and writes back whole; here it is the field of one store object. */
module Guestbook {
  import opened Http
  import opened Text
  import opened Seqs

  datatype Entry = Entry(id: string, name: string, message: string, timestamp: int)

  function EntryIds(entries: seq<Entry>): (ids: seq<string>)
    ensures |ids| == |entries|
    ensures forall i :: 0 <= i < |entries| ==> ids[i] == entries[i].id
  {
    seq(|entries|, i requires 0 <= i < |entries| => entries[i].id)
  }

  function Min(a: int, b: int): int {
    if a <= b then a else b
  }

  /** Python's `entries[start:start + limit]`: both bounds are clipped to the list. */
  function Window(entries: seq<Entry>, start: nat, limit: nat): (r: seq<Entry>)
    ensures |r| <= limit
    ensures start >= |entries| ==> r == []
    ensures start < |entries| ==> |r| == Min(limit, |entries| - start)
    ensures forall i :: 0 <= i < |r| ==> r[i] == entries[start + i]
  {
    entries[Min(start, |entries|)..Min(start + limit, |entries|)]
  }

  /** The first index of page `page`. */
  function PageStart(page: int, limit: int): nat
    requires page >= 1 && limit >= 1
  {
    (page - 1) * limit
  }

  /** get_entries: the window from `start = (page - 1) * limit`. */
  function Page(entries: seq<Entry>, page: int, limit: int): (r: seq<Entry>)
    requires page >= 1 && limit >= 1
    ensures |r| <= limit
    ensures PageStart(page, limit) >= |entries| ==> r == []
    ensures PageStart(page, limit) < |entries| ==> |r| == Min(limit, |entries| - PageStart(page, limit))
    ensures forall i :: 0 <= i < |r| ==> r[i] == entries[PageStart(page, limit) + i]
  {
    Window(entries, PageStart(page, limit), limit)
  }

  /** The defaults of the `page` and `limit` query parameters. */
  const DefaultPage: int := 1
  const DefaultLimit: int := 5

  /** A query parameter, or its default when the request leaves it out. */
  function OrDefault(o: Option<int>, default: int): int {
    if o.Some? then o.value else default
  }

  /** A request without parameters sees the first five entries, or all of them when there are
      fewer. */
  lemma DefaultPageIsFirstFive(entries: seq<Entry>)
    ensures Page(entries, OrDefault(None, DefaultPage), OrDefault(None, DefaultLimit)) == entries[..Min(5, |entries|)]
  {
    var r := Page(entries, DefaultPage, DefaultLimit);
    assert PageStart(DefaultPage, DefaultLimit) == 0;
    assert |r| == Min(5, |entries|);
    assert forall i :: 0 <= i < |r| ==> r[i] == entries[i];
  }

  /** Every entry is shown once paging reaches it: entry `k` is item `k % limit` of page
      `k / limit + 1`. */
  lemma EntryOnItsPage(entries: seq<Entry>, k: nat, limit: int)
    requires k < |entries| && limit >= 1
    ensures k % limit < |Page(entries, k / limit + 1, limit)|
    ensures Page(entries, k / limit + 1, limit)[k % limit] == entries[k]
  {
    var q, m := k / limit, k % limit;
    assert q * limit + m == k;
    assert PageStart(q + 1, limit) == q * limit;
  }

  /** The list without the entries that carry `id`. */
  function NotId(id: string): Entry -> bool {
    (e: Entry) => e.id != id
  }

  /** `[e for e in entries if e.id != entry_id]`, and whether delete_entry answers 404. */
  lemma DeleteFilter(entries: seq<Entry>, id: string)
    ensures |Filter(entries, NotId(id))| == |entries| <==> id !in EntryIds(entries)
    ensures forall e :: e in Filter(entries, NotId(id)) <==> e in entries && e.id != id
    ensures IsSubsequence(Filter(entries, NotId(id)), entries)
  {
    FilterKeepsAll(entries, NotId(id));
    var f := Filter(entries, NotId(id));
    forall e | e in f ensures e in entries && e.id != id {
      var j :| 0 <= j < |f| && f[j] == e;
    }
    forall e | e in entries && e.id != id ensures e in f {
      var j :| 0 <= j < |entries| && entries[j] == e;
    }
    if id in EntryIds(entries) {
      var j :| 0 <= j < |entries| && EntryIds(entries)[j] == id;
      assert !NotId(id)(entries[j]);
    }
  }

  /** The list after update_entry: with a message, the first entry with the id takes the
      stripped text, which may be empty; without one nothing changes. */
  function Edited(entries: seq<Entry>, id: string, message: Option<string>): (r: seq<Entry>)
    ensures |r| == |entries| && EntryIds(r) == EntryIds(entries)
    ensures id !in EntryIds(entries) || message.None? ==> r == entries
  {
    match IndexOf(EntryIds(entries), id)
    case None => entries
    case Some(i) =>
      if message.Some? then entries[i := entries[i].(message := Strip(message.value))] else entries
  }

  /** Updating touches only the message of the first entry with the id. */
  lemma EditedChangesOneMessage(entries: seq<Entry>, id: string, message: Option<string>)
    ensures |Edited(entries, id, message)| == |entries|
    ensures forall j :: 0 <= j < |entries| ==>
      var e := Edited(entries, id, message)[j];
      && e.id == entries[j].id && e.name == entries[j].name && e.timestamp == entries[j].timestamp
      && e.message == (if IndexOf(EntryIds(entries), id) == Some(j) && message.Some?
                       then Strip(message.value) else entries[j].message)
  {
  }

  /** The guestbook file, as the list of entries it holds. */
  class GuestbookStore {
    var entries: seq<Entry>

    constructor ()
      ensures entries == []
    {
      entries := [];
    }

    /** get_entries: a missing `page` is 1 and a missing `limit` is 5. */
    method GetEntries(page: Option<int>, limit: Option<int>) returns (r: seq<Entry>)
      requires OrDefault(page, DefaultPage) >= 1 && OrDefault(limit, DefaultLimit) >= 1
      ensures r == Page(entries, OrDefault(page, DefaultPage), OrDefault(limit, DefaultLimit))
    {
      var p := if page.Some? then page.value else DefaultPage;
      var l := if limit.Some? then limit.value else DefaultLimit;
      r := Page(entries, p, l);
    }

    /** create_entry, with the fresh uuid4 supplied as `id` and the clock as `now`. */
    method Create(name: string, message: string, id: string, now: int) returns (r: Result<Entry>)
      modifies this
      ensures r.Err? <==> Strip(name) == [] || Strip(message) == []
      ensures r.Err? ==> r.status == BadRequest && entries == old(entries)
      ensures r.Ok? ==> r.value == Entry(id, Strip(name), Strip(message), now)
      ensures r.Ok? ==> entries == old(entries) + [r.value]
    {
      if Strip(name) == [] || Strip(message) == [] {
        return Err(BadRequest);
      }
      var entry := Entry(id, Strip(name), Strip(message), now);
      entries := entries + [entry];
      r := Ok(entry);
    }

    /** delete_entry: every entry with the id goes; 404 when none did. */
    method Delete(id: string) returns (r: Result<()>)
      modifies this
      ensures r.Err? <==> id !in EntryIds(old(entries))
      ensures r.Err? ==> r.status == NotFound && entries == old(entries)
      ensures r.Ok? ==> entries == Filter(old(entries), NotId(id))
      ensures forall e :: e in entries <==> e in old(entries) && (r.Ok? ==> e.id != id)
    {
      var filtered := Filter(entries, NotId(id));
      DeleteFilter(entries, id);
      if |filtered| == |entries| {
        return Err(NotFound);
      }
      entries := filtered;
      r := Ok(());
    }

    /** update_entry: the loop stops at the first entry with the id. */
    method Update(id: string, message: Option<string>) returns (r: Result<Entry>)
      modifies this
      ensures entries == Edited(old(entries), id, message)
      ensures r.Err? <==> id !in EntryIds(old(entries))
      ensures r.Err? ==> r.status == NotFound
      ensures r.Ok? ==> r.value == entries[IndexOf(EntryIds(old(entries)), id).value]
    {
      var i := 0;
      while i < |entries|
        invariant 0 <= i <= |entries| && entries == old(entries)
        invariant forall j :: 0 <= j < i ==> entries[j].id != id
      {
        if entries[i].id == id {
          assert EntryIds(entries)[i] == id;
          assert IndexOf(EntryIds(entries), id) == Some(i);
          if message.Some? {
            entries := entries[i := entries[i].(message := Strip(message.value))];
          }
          return Ok(entries[i]);
        }
        i := i + 1;
      }
      return Err(NotFound);
    }
  }
}
