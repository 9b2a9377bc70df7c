/** The bounded, persisted request ledger (goblin_zomboid/ipc.py, RequestLedger). */
module RequestLedger {
  import opened Common
  import opened Protocol

  /** One item of the `_entries` dictionary. */
  datatype Entry = Entry(id: string, ts: int)

  /** The ledger file: absent, not readable as JSON, or the dictionary dumped with sorted keys. */
  datatype LedgerFile = Missing | Unreadable | Dumped(entries: seq<Entry>)

  /** What the operating system did with the atomic write of the file. */
  datatype WriteOutcome = Written | FailedBeforeEffect | FailedAfterEffect

  predicate Distinct(s: seq<Entry>) {
    forall i, j :: 0 <= i < j < |s| ==> s[i].id != s[j].id
  }

  predicate Has(s: seq<Entry>, id: string) {
    exists i :: 0 <= i < |s| && s[i].id == id
  }

  /** `sorted(..., key=timestamp, reverse=True)`: newest first, ties keep dictionary order. */
  function InsertNewest(e: Entry, s: seq<Entry>): (r: seq<Entry>)
    ensures multiset(r) == multiset(s) + multiset{e}
  {
    if s == [] || s[0].ts <= e.ts then [e] + s
    else
      assert s == [s[0]] + s[1..];
      [s[0]] + InsertNewest(e, s[1..])
  }

  function NewestFirst(s: seq<Entry>): (r: seq<Entry>)
    ensures multiset(r) == multiset(s)
  {
    if s == [] then [] else
      assert s == [s[0]] + s[1..];
      InsertNewest(s[0], NewestFirst(s[1..]))
  }

  /** `json.dumps(..., sort_keys=True)`: the order in which a reload sees the items. */
  function InsertByKey(e: Entry, s: seq<Entry>): (r: seq<Entry>)
    ensures multiset(r) == multiset(s) + multiset{e}
  {
    if s == [] || StrLe(e.id, s[0].id) then [e] + s
    else
      assert s == [s[0]] + s[1..];
      [s[0]] + InsertByKey(e, s[1..])
  }

  function KeyOrder(s: seq<Entry>): (r: seq<Entry>)
    ensures multiset(r) == multiset(s)
  {
    if s == [] then [] else
      assert s == [s[0]] + s[1..];
      InsertByKey(s[0], KeyOrder(s[1..]))
  }

  /** Dictionary assignment: an existing key keeps its place. */
  function Assign(s: seq<Entry>, e: Entry): (r: seq<Entry>) {
    if s == [] then [e]
    else if s[0].id == e.id then [e] + s[1..]
    else [s[0]] + Assign(s[1..], e)
  }

  function Trim(s: seq<Entry>, max: nat): (r: seq<Entry>) {
    if |s| <= max then s else
      assert |multiset(s)| == |multiset(NewestFirst(s))|;
      NewestFirst(s)[..max]
  }

  /** Reading the file back: anything but a dictionary starts an empty ledger. */
  function Loaded(file: LedgerFile, max: nat): (r: seq<Entry>) {
    match file
    case Dumped(entries) => Trim(Restore([], entries), max)
    case _ => []
  }

  /** The load loop: keep items with a valid id. */
  function Restore(acc: seq<Entry>, raw: seq<Entry>): (r: seq<Entry>)
    decreases |raw|
  {
    if raw == [] then acc
    else Restore(if ValidId(raw[0].id) then Assign(acc, raw[0]) else acc, raw[1..])
  }

  predicate NewestSorted(s: seq<Entry>) {
    forall i, j :: 0 <= i < j < |s| ==> s[i].ts >= s[j].ts
  }

  lemma {:induction false} InsertNewestSorted(e: Entry, s: seq<Entry>)
    requires NewestSorted(s)
    ensures NewestSorted(InsertNewest(e, s))
  {
    if s != [] && s[0].ts > e.ts {
      InsertNewestSorted(e, s[1..]);
      var r := InsertNewest(e, s[1..]);
      forall j | 0 <= j < |r| ensures r[j].ts <= s[0].ts {
        assert r[j] in multiset(r);
        assert r[j] == e || r[j] in multiset(s[1..]);
      }
    }
  }

  lemma {:induction false} NewestFirstSorted(s: seq<Entry>)
    ensures NewestSorted(NewestFirst(s))
  {
    if s != [] {
      NewestFirstSorted(s[1..]);
      InsertNewestSorted(s[0], NewestFirst(s[1..]));
    }
  }

  /** Distinct ids, said of the bag of items. */
  ghost predicate DistinctBag(m: multiset<Entry>) {
    && (forall e :: e in m ==> m[e] == 1)
    && (forall e, f :: e in m && f in m && e.id == f.id ==> e == f)
  }

  lemma BagStep(h: Entry, m: multiset<Entry>)
    ensures DistinctBag(multiset{h} + m) <==> DistinctBag(m) && forall e :: e in m ==> e.id != h.id
  {
    var all := multiset{h} + m;
    forall e | e in m ensures e in all && h in all {}
    if DistinctBag(all) {
      forall e | e in m ensures m[e] == 1 && e.id != h.id {
        assert all[e] == 1;
      }
    }
  }

  lemma SeqStep(h: Entry, t: seq<Entry>)
    ensures Distinct([h] + t) <==> Distinct(t) && forall e :: e in t ==> e.id != h.id
  {
    var s := [h] + t;
    assert forall j :: 0 < j < |s| ==> s[j] == t[j - 1];
    if Distinct(s) {
      forall e | e in t ensures e.id != h.id {
        var j :| 0 <= j < |t| && t[j] == e;
        assert s[j + 1] == e && s[0] == h;
      }
      forall i, j | 0 <= i < j < |t| ensures t[i].id != t[j].id {
        assert s[i + 1] == t[i] && s[j + 1] == t[j];
      }
    }
  }

  lemma {:induction false} DistinctIsBag(s: seq<Entry>)
    ensures Distinct(s) <==> DistinctBag(multiset(s))
  {
    if s != [] {
      var t := s[1..];
      DistinctIsBag(t);
      SeqStep(s[0], t);
      BagStep(s[0], multiset(t));
      assert s == [s[0]] + t;
      assert forall e :: e in t <==> e in multiset(t);
    }
  }

  /** Distinctness of ids only depends on which items occur. */
  lemma DistinctPermutes(a: seq<Entry>, b: seq<Entry>)
    requires Distinct(a) && multiset(a) == multiset(b)
    ensures Distinct(b)
  {
    DistinctIsBag(a);
    DistinctIsBag(b);
  }

  /** Trimming keeps distinct items of the old ledger, never more than max, and
      whatever it drops is no newer than anything it keeps. */
  lemma TrimKeepsNewest(s: seq<Entry>, max: nat)
    requires Distinct(s)
    ensures var r := Trim(s, max);
      && Distinct(r)
      && |r| == (if |s| <= max then |s| else max)
      && (forall e :: e in r ==> e in s)
      && (forall d, k :: d in s && d !in r && k in r ==> d.ts <= k.ts)
  {
    if |s| > max {
      var n := NewestFirst(s);
      NewestFirstSorted(s);
      assert |multiset(s)| == |multiset(n)|;
      DistinctPermutes(s, n);
      assert Distinct(n[..max]);
      hide Distinct, NewestFirst;
      forall e | e in n[..max] ensures e in s {
        assert e in multiset(n);
      }
      forall d, k | d in s && d !in n[..max] && k in n[..max] ensures d.ts <= k.ts {
        assert d in multiset(n);
        var i :| 0 <= i < |n| && n[i] == d;
        var j :| 0 <= j < max && n[j] == k;
        assert forall p :: 0 <= p < max ==> n[p] in n[..max];
      }
    }
  }

  lemma {:induction false} AssignNew(s: seq<Entry>, e: Entry)
    requires !Has(s, e.id)
    ensures Assign(s, e) == s + [e]
  {
    if s != [] {
      assert s[0].id != e.id;
      assert forall i :: 0 <= i < |s[1..]| ==> s[1..][i] == s[i + 1];
      AssignNew(s[1..], e);
    }
  }

  lemma {:induction false} RestoreAll(acc: seq<Entry>, raw: seq<Entry>)
    requires Distinct(acc + raw)
    requires forall e :: e in raw ==> ValidId(e.id)
    ensures Restore(acc, raw) == acc + raw
    decreases |raw|
  {
    if raw == [] {
      assert acc + raw == acc;
    } else {
      assert !Has(acc, raw[0].id) by {
        forall i | 0 <= i < |acc| ensures acc[i].id != raw[0].id {
          assert (acc + raw)[i] == acc[i] && (acc + raw)[|acc|] == raw[0];
        }
      }
      AssignNew(acc, raw[0]);
      assert acc + [raw[0]] + raw[1..] == acc + raw;
      RestoreAll(acc + [raw[0]], raw[1..]);
    }
  }

  /** A dictionary this ledger dumped comes back with exactly the same items. */
  lemma ReloadKeepsItems(s: seq<Entry>, max: nat)
    requires Distinct(s) && |s| <= max
    requires forall e :: e in s ==> ValidId(e.id)
    ensures Loaded(Dumped(KeyOrder(s)), max) == KeyOrder(s)
    ensures Distinct(KeyOrder(s)) && multiset(KeyOrder(s)) == multiset(s)
  {
    hide KeyOrder, Restore, Distinct;
    var k := KeyOrder(s);
    DistinctPermutes(s, k);
    assert |multiset(s)| == |multiset(k)|;
    forall e | e in k ensures ValidId(e.id) {
      assert e in multiset(k);
    }
    assert [] + k == k;
    RestoreAll([], k);
  }

  // ---- what a file and an assignment contribute

  predicate Keepable(e: Entry) {
    ValidId(e.id)
  }

  /** Of a dictionary, whose keys are distinct, exactly the items with a valid id are kept, in their order. */
  lemma {:induction false} RestoreFilters(acc: seq<Entry>, raw: seq<Entry>)
    requires Distinct(acc + raw)
    ensures Restore(acc, raw) == acc + Filter(raw, Keepable)
    decreases |raw|
  {
    hide ValidId;
    if raw == [] {
      assert acc + [] == acc;
    } else {
      var e, rest := raw[0], raw[1..];
      var kept := Filter(rest, Keepable);
      assert raw == [e] + rest;
      FilterFirst(raw, Keepable);
      NewToAll(acc, raw);
      AssignNew(acc, e);
      RestoreStep(acc, raw);
      DropMiddle(acc, e, rest);
      Regroup(acc, [e], rest);
      Regroup(acc, [e], kept);
      hide Distinct, Restore, Has, Assign, Filter;
      if ValidId(e.id) {
        RestoreFilters(acc + [e], rest);
      } else {
        RestoreFilters(acc, rest);
        assert [] + kept == kept;
      }
    }
  }

  lemma Regroup(a: seq<Entry>, b: seq<Entry>, c: seq<Entry>)
    ensures a + b + c == a + (b + c)
  {}

  lemma NewToAll(acc: seq<Entry>, raw: seq<Entry>)
    requires Distinct(acc + raw) && raw != []
    ensures !Has(acc, raw[0].id)
  {
    forall i | 0 <= i < |acc| ensures acc[i].id != raw[0].id {
      assert (acc + raw)[i] == acc[i] && (acc + raw)[|acc|] == raw[0];
    }
  }

  lemma RestoreStep(acc: seq<Entry>, raw: seq<Entry>)
    requires raw != []
    ensures Restore(acc, raw) == Restore(if ValidId(raw[0].id) then Assign(acc, raw[0]) else acc, raw[1..])
  {}

  lemma DropMiddle(a: seq<Entry>, e: Entry, b: seq<Entry>)
    ensures Distinct(a + [e] + b) ==> Distinct(a + b)
  {
    var s, r := a + [e] + b, a + b;
    assert forall i :: 0 <= i < |r| ==> r[i] == s[if i < |a| then i else i + 1];
  }

  /** What a new process knows: nothing unless the file is a dictionary, and then the newest of its valid items. */
  lemma LoadedIs(file: LedgerFile, max: nat)
    requires file.Dumped? ==> Distinct(file.entries)
    ensures !file.Dumped? ==> Loaded(file, max) == []
    ensures file.Dumped? ==>
      var r := Loaded(file, max);
      && Distinct(r) && |r| <= max && (forall e :: e in r ==> e in file.entries && ValidId(e.id))
      && (forall d, k :: d in file.entries && ValidId(d.id) && d !in r && k in r ==> |r| == max && d.ts <= k.ts)
  {
    if file.Dumped? {
      assert [] + file.entries == file.entries;
      RestoreFilters([], file.entries);
      var kept := Filter(file.entries, Keepable);
      assert [] + kept == kept;
      FilterDistinct(file.entries, Keepable);
      TrimKeepsNewest(kept, max);
      forall e ensures e in kept <==> e in file.entries && ValidId(e.id) { FilterHas(file.entries, Keepable, e); }
      hide ValidId, Filter, Trim, Restore, Distinct;
    }
  }

  lemma FilterDistinct(s: seq<Entry>, p: Entry -> bool)
    requires Distinct(s)
    ensures Distinct(Filter(s, p))
  {
    FilterPicks(s, p);
    hide Filter, Places;
  }

  /** Assigning to a key that is there changes its value and nothing else. */
  lemma {:induction false} AssignKnown(s: seq<Entry>, e: Entry)
    requires Distinct(s) && Has(s, e.id)
    ensures var r := Assign(s, e);
      |r| == |s| && forall i :: 0 <= i < |s| ==> r[i] == if s[i].id == e.id then e else s[i]
  {
    SeqStep(s[0], s[1..]);
    assert s == [s[0]] + s[1..];
    if s[0].id != e.id {
      var i :| 0 <= i < |s| && s[i].id == e.id;
      assert s[1..][i - 1] == s[i];
      AssignKnown(s[1..], e);
    } else {
      forall i | 0 < i < |s| ensures s[i].id != e.id {
        assert s[1..][i - 1] == s[i] && s[i] in s[1..];
      }
    }
  }

  predicate KeySorted(s: seq<Entry>) {
    forall i, j :: 0 <= i < j < |s| ==> StrLe(s[i].id, s[j].id)
  }

  lemma {:induction false} InsertKeySorted(e: Entry, s: seq<Entry>)
    requires KeySorted(s)
    ensures KeySorted(InsertByKey(e, s))
  {
    if s == [] {
    } else if StrLe(e.id, s[0].id) {
      forall j | 0 <= j < |s| ensures StrLe(e.id, s[j].id) {
        if j > 0 { StrTransitive(e.id, s[0].id, s[j].id); }
      }
      hide StrLe;
    } else {
      StrOrder(e.id, s[0].id);
      InsertKeySorted(e, s[1..]);
      var r := InsertByKey(e, s[1..]);
      forall j | 0 <= j < |r| ensures StrLe(s[0].id, r[j].id) {
        assert r[j] in multiset(r);
        assert r[j] == e || r[j] in s[1..];
      }
      hide StrLe;
    }
  }

  /** The file is dumped with its keys in order. */
  lemma {:induction false} KeyOrderSorted(s: seq<Entry>)
    ensures KeySorted(KeyOrder(s))
  {
    if s != [] {
      hide StrLe;
      KeyOrderSorted(s[1..]);
      InsertKeySorted(s[0], KeyOrder(s[1..]));
    }
  }

  /** The items of one timestamp, in their order. */
  function Of(s: seq<Entry>, ts: int): (r: seq<Entry>) {
    if s == [] then [] else (if s[0].ts == ts then [s[0]] else []) + Of(s[1..], ts)
  }

  lemma {:induction false} InsertNewestStable(e: Entry, s: seq<Entry>, ts: int)
    requires NewestSorted(s)
    ensures Of(InsertNewest(e, s), ts) == if e.ts == ts then [e] + Of(s, ts) else Of(s, ts)
  {
    if s == [] || s[0].ts <= e.ts {
      assert ([e] + s)[1..] == s;
    } else {
      InsertNewestStable(e, s[1..], ts);
      assert ([s[0]] + InsertNewest(e, s[1..]))[1..] == InsertNewest(e, s[1..]);
    }
  }

  /** Sorting by timestamp leaves items of the same time in dictionary order. */
  lemma {:induction false} NewestFirstStable(s: seq<Entry>, ts: int)
    ensures Of(NewestFirst(s), ts) == Of(s, ts)
  {
    if s != [] {
      NewestFirstStable(s[1..], ts);
      NewestFirstSorted(s[1..]);
      InsertNewestStable(s[0], NewestFirst(s[1..]), ts);
    }
  }

  /** The effect of one `remember`: the dictionary always changes, the file only if the write took effect. */
  function Remembered(s: seq<Entry>, e: Entry, max: nat): (r: seq<Entry>) {
    Trim(Assign(s, e), max)
  }

  function FileAfter(file: LedgerFile, s: seq<Entry>, write: WriteOutcome): (r: LedgerFile) {
    if write == FailedBeforeEffect then file else Dumped(KeyOrder(s))
  }

  /** The file is what the ledger holds, by key, exactly if the write took effect, even where it then reported failure. */
  lemma FileAfterIs(file: LedgerFile, s: seq<Entry>, write: WriteOutcome)
    ensures var r := FileAfter(file, s, write);
      && (r == file || (r.Dumped? && KeySorted(r.entries) && multiset(r.entries) == multiset(s)))
      && (write == FailedBeforeEffect ==> r == file)
      && (write != FailedBeforeEffect ==> r.Dumped? && multiset(r.entries) == multiset(s))
  {
    KeyOrderSorted(s);
  }

  class Ledger {
    var entries: seq<Entry>
    var file: LedgerFile
    const maxEntries: nat

    constructor (file: LedgerFile, maxEntries: nat)
      requires maxEntries >= 1
      ensures this.file == file && this.maxEntries == maxEntries
      ensures entries == Loaded(file, maxEntries)
    {
      this.file := file;
      this.maxEntries := maxEntries;
      entries := [];
      new;
      Load();
    }

    method Load()
      modifies this`entries
      requires entries == []
      ensures entries == Loaded(file, maxEntries)
    {
      match file
      case Dumped(raw) =>
        var i := 0;
        while i < |raw|
          invariant 0 <= i <= |raw|
          invariant Restore(entries, raw[i..]) == Restore([], raw)
        {
          assert raw[i..][1..] == raw[i + 1..];
          if ValidId(raw[i].id) {
            entries := Assign(entries, raw[i]);
          }
          i := i + 1;
        }
        TrimEntries();
      case _ =>
    }

    method TrimEntries()
      modifies this`entries
      ensures entries == Trim(old(entries), maxEntries)
    {
      if |entries| <= maxEntries {
        return;
      }
      var keep := NewestFirst(entries);
      assert |multiset(keep)| == |multiset(entries)|;
      entries := keep[..maxEntries];
    }

    method Seen(id: string) returns (found: bool)
      ensures found <==> Has(entries, id)
    {
      found := exists i :: 0 <= i < |entries| && entries[i].id == id;
    }

    /** Returns false where the source raises: a bad id (nothing happens) or a failed write. */
    method Remember(id: string, ts: int, write: WriteOutcome) returns (ok: bool)
      requires ts > 0
      modifies this
      ensures !ValidId(id) ==> !ok && entries == old(entries) && file == old(file)
      ensures ValidId(id) ==>
        && ok == write.Written?
        && entries == Remembered(old(entries), Entry(id, ts), maxEntries)
        && file == FileAfter(old(file), entries, write)
    {
      if !ValidId(id) {
        return false;
      }
      entries := Assign(entries, Entry(id, ts));
      TrimEntries();
      if write == FailedBeforeEffect {
        return false;
      }
      file := Dumped(KeyOrder(entries));
      ok := write == Written;
    }
  }
}
