/** Episode memory with eviction after every insert (goblin_zomboid/mind.py, GoblinMind.record). */
module Episodes {
  import opened Common

  const LATEST := 400
  const IMPORTANT := 100

  datatype Episode = Episode(id: nat, npc: string, importance: real, valence: real, kind: string, text: string)

  /** ORDER BY id DESC, and ORDER BY importance DESC, id DESC: a strictly precedes b. */
  datatype Order = ById | ByImportance

  predicate Before(o: Order, a: Episode, b: Episode) {
    match o
    case ById => a.id > b.id
    case ByImportance => a.importance > b.importance || (a.importance == b.importance && a.id > b.id)
  }

  /** Row ids are unique: the table's primary key. */
  ghost predicate Keyed(rows: set<Episode>) {
    forall a, b :: NoClash(rows, a, b)
  }

  ghost predicate NoClash(rows: set<Episode>, a: Episode, b: Episode) {
    a in rows && b in rows && a.id == b.id ==> a == b
  }

  lemma KeyedSubset(a: set<Episode>, b: set<Episode>)
    requires a <= b && Keyed(b)
    ensures Keyed(a)
  {
    forall x, y ensures NoClash(a, x, y) {
      assert NoClash(b, x, y);
    }
  }

  lemma KeyedGrows(a: set<Episode>, e: Episode)
    requires Keyed(a) && forall x :: x in a ==> x.id != e.id
    ensures Keyed(a + {e})
  {
    forall x, y ensures NoClash(a + {e}, x, y) {
      assert NoClash(a, x, y);
    }
  }

  function Ahead(o: Order, rows: set<Episode>, e: Episode): (r: set<Episode>) {
    set x | x in rows && Before(o, x, e)
  }

  /** SELECT ... ORDER BY o LIMIT n: the rows with fewer than n rows ahead of them. */
  function Top(o: Order, rows: set<Episode>, n: nat): (r: set<Episode>) {
    set x | x in rows && |Ahead(o, rows, x)| < n
  }

  function Of(rows: set<Episode>, npc: string): (r: set<Episode>) {
    set x | x in rows && x.npc == npc
  }

  /** What the batch rule keeps of one companion's rows. */
  function Kept(rows: set<Episode>): (r: set<Episode>) {
    Top(ById, rows, LATEST) + Top(ByImportance, rows, IMPORTANT)
  }

  lemma CardMono(a: set<Episode>, b: set<Episode>)
    requires a <= b
    ensures |a| <= |b|
  {
    assert b == a + (b - a);
  }

  ghost predicate Best(o: Order, rows: set<Episode>, m: Episode) {
    m in rows && forall x :: x in rows && x != m ==> Before(o, m, x)
  }

  lemma {:induction false} BestExists(o: Order, rows: set<Episode>) returns (m: Episode)
    requires rows != {} && Keyed(rows)
    ensures Best(o, rows, m)
  {
    var x :| x in rows;
    var rest := rows - {x};
    KeyedSubset(rest, rows);
    if rest == {} {
      m := x;
      forall y | y in rows ensures y == x {
        assert y !in rest;
      }
    } else {
      var r := BestExists(o, rest);
      assert NoClash(rows, x, r);
      m := if Before(o, x, r) then x else r;
      forall y | y in rows && y != m ensures Before(o, m, y) {
        assert y == x || y in rest;
      }
    }
  }

  lemma AheadAsymmetric(o: Order, a: Episode, b: Episode)
    ensures !(Before(o, a, b) && Before(o, b, a))
  {}

  lemma TopStep(o: Order, rows: set<Episode>, m: Episode, n: nat)
    requires n > 0 && Best(o, rows, m)
    ensures Top(o, rows, n) == Top(o, rows - {m}, n - 1) + {m}
    ensures m !in Top(o, rows - {m}, n - 1)
  {
    var rest := rows - {m};
    forall x | x in rows ensures !Before(o, x, m) {
      AheadAsymmetric(o, x, m);
    }
    hide Before;
    assert Ahead(o, rows, m) == {};
    forall x | x in rest ensures |Ahead(o, rows, x)| == |Ahead(o, rest, x)| + 1 {
      assert Ahead(o, rows, x) == Ahead(o, rest, x) + {m};
    }
  }

  lemma TopEmpty(o: Order, rows: set<Episode>, n: nat)
    requires n == 0 || rows == {}
    ensures Top(o, rows, n) == {}
  {}

  /** LIMIT n really selects n rows when there are that many. */
  lemma {:induction false} TopSize(o: Order, rows: set<Episode>, n: nat)
    requires Keyed(rows)
    ensures |Top(o, rows, n)| == if |rows| < n then |rows| else n
    decreases n
  {
    hide Top, Keyed, Best;
    if n == 0 || rows == {} {
      TopEmpty(o, rows, n);
    } else {
      var m := BestExists(o, rows);
      KeyedSubset(rows - {m}, rows);
      TopSize(o, rows - {m}, n - 1);
      TopStep(o, rows, m, n);
    }
  }

  /** Rows that do not make the limit can be dropped before another row arrives. */
  lemma TopIncremental(o: Order, all: set<Episode>, kept: set<Episode>, e: Episode, n: nat)
    requires Keyed(all + {e}) && e !in all
    requires Top(o, all, n) <= kept <= all
    ensures Top(o, kept + {e}, n) == Top(o, all + {e}, n)
  {
    var big, small := all + {e}, kept + {e};
    forall x ensures x in Top(o, small, n) <==> x in Top(o, big, n) {
      if x in big {
        CardMono(Ahead(o, small, x), Ahead(o, big, x));
        CardMono(Ahead(o, all, x), Ahead(o, big, x));
        if x in small && x !in Top(o, big, n) {
          // n rows ahead of x are the best of all: none of them was dropped
          var ahead := Ahead(o, big, x);
          KeyedSubset(ahead, big);
          TopSize(o, ahead, n);
          forall y | y in Top(o, ahead, n) ensures y in Ahead(o, small, x) {
            assert Ahead(o, ahead, y) == Ahead(o, big, y);
            CardMono(Ahead(o, all, y), Ahead(o, big, y));
            assert y == e || y in Top(o, all, n);
          }
          CardMono(Top(o, ahead, n), Ahead(o, small, x));
        }
      }
    }
  }

  lemma KeptIncremental(all: set<Episode>, e: Episode)
    requires Keyed(all + {e}) && e !in all
    ensures Kept(Kept(all) + {e}) == Kept(all + {e})
  {
    TopIncremental(ById, all, Kept(all), e, LATEST);
    TopIncremental(ByImportance, all, Kept(all), e, IMPORTANT);
  }

  lemma KeptSize(rows: set<Episode>)
    requires Keyed(rows)
    ensures |Kept(rows)| <= LATEST + IMPORTANT
    ensures |rows| <= LATEST ==> Kept(rows) == rows
  {
    TopSize(ById, rows, LATEST);
    TopSize(ByImportance, rows, IMPORTANT);
    hide Keyed;
    var a, b := Top(ById, rows, LATEST), Top(ByImportance, rows, IMPORTANT);
    assert |a + b| == |a| + |b| - |a * b|;
    if |rows| <= LATEST {
      forall x | x in rows ensures x in a {
        CardMono(Ahead(ById, rows, x) + {x}, rows);
      }
    }
  }

  /** A row is kept exactly if fewer than 400 rows are newer, or fewer than 100 weigh more, where of equal weights the
      newer one counts as more. */
  lemma KeptIs(rows: set<Episode>, x: Episode)
    ensures var newer := set y | y in rows && y.id > x.id;
      var weightier := set y | y in rows && (y.importance > x.importance || (y.importance == x.importance && y.id > x.id));
      x in Kept(rows) <==> x in rows && (|newer| < 400 || |weightier| < 100)
  {
    assert Ahead(ById, rows, x) == set y | y in rows && y.id > x.id;
    assert Ahead(ByImportance, rows, x) == set y | y in rows && (y.importance > x.importance || (y.importance == x.importance && y.id > x.id));
  }

  // ---- the table under any sequence of records

  /** Arguments of one record call. */
  datatype Record = Record(npc: string, kind: string, text: string, importance: real, valence: real)

  function Clamp(x: real, lo: real, hi: real): (r: real) {
    if x < lo then lo else if x > hi then hi else x
  }

  predicate Blank(text: string) {
    forall i :: 0 <= i < |text| ==> PySpace(text[i])
  }

  /** The stored table and the next row id. */
  datatype Table = Table(rows: set<Episode>, nextId: nat)

  function RowOf(id: nat, r: Record): (e: Episode) {
    Episode(id, r.npc, Clamp(r.importance, 0.0, 1.0), Clamp(r.valence, -1.0, 1.0), Cut(r.kind, 32), Cut(r.text, 240))
  }

  /** A row holds what was recorded, with the numbers brought into their ranges and the texts cut. */
  lemma RowIs(id: nat, r: Record)
    ensures var e := RowOf(id, r);
      && e.id == id && e.npc == r.npc && 0.0 <= e.importance <= 1.0 && -1.0 <= e.valence <= 1.0
      && (0.0 <= r.importance <= 1.0 ==> e.importance == r.importance)
      && (r.importance < 0.0 ==> e.importance == 0.0) && (r.importance > 1.0 ==> e.importance == 1.0)
      && (-1.0 <= r.valence <= 1.0 ==> e.valence == r.valence)
      && (r.valence < -1.0 ==> e.valence == -1.0) && (r.valence > 1.0 ==> e.valence == 1.0)
      && e.text <= r.text && |e.text| == (if |r.text| <= 240 then |r.text| else 240)
      && e.kind <= r.kind && |e.kind| == (if |r.kind| <= 32 then |r.kind| else 32)
  {}

  /** INSERT, then DELETE of that companion's rows outside both limits. */
  function Recorded(t: Table, r: Record): (t': Table) {
    if Blank(Cut(r.text, 240)) then t
    else
      var rows := t.rows + {RowOf(t.nextId, r)};
      Table((rows - Of(rows, r.npc)) + Kept(Of(rows, r.npc)), t.nextId + 1)
  }

  /** One record adds its row, unless what is left of its text is white space, and evicts rows of this companion alone, down
      to those the rule keeps. */
  lemma RecordedIs(t: Table, r: Record, x: Episode)
    ensures var t', e := Recorded(t, r), RowOf(t.nextId, r);
      if forall i :: 0 <= i < |r.text| && i < 240 ==> PySpace(r.text[i]) then t' == t
      else
        && t'.nextId == t.nextId + 1
        && (x.npc != r.npc ==> (x in t'.rows <==> x in t.rows))
        && (x.npc == r.npc ==> (x in t'.rows <==> x in Kept(Of(t.rows + {e}, r.npc))))
  {
    assert RowOf(t.nextId, r).npc == r.npc;
    hide Kept, RowOf;
    var kept := Cut(r.text, 240);
    assert Blank(kept) <==> forall i :: 0 <= i < |r.text| && i < 240 ==> PySpace(r.text[i]);
    KeptWithin(Of(t.rows + {RowOf(t.nextId, r)}, r.npc));
  }

  lemma KeptWithin(rows: set<Episode>)
    ensures Kept(rows) <= rows
  {}

  function Play(t: Table, log: seq<Record>): (t': Table)
    decreases |log|
  {
    if log == [] then t else Recorded(Play(t, log[..|log| - 1]), log[|log| - 1])
  }

  /** Everything ever recorded, with nothing evicted. */
  function Ever(log: seq<Record>): (t: Table)
    decreases |log|
  {
    if log == [] then Table({}, 0)
    else
      var t := Ever(log[..|log| - 1]);
      var r := log[|log| - 1];
      if Blank(Cut(r.text, 240)) then t else Table(t.rows + {RowOf(t.nextId, r)}, t.nextId + 1)
  }

  lemma {:induction false} EverKeyed(log: seq<Record>)
    ensures Keyed(Ever(log).rows) && forall x :: x in Ever(log).rows ==> x.id < Ever(log).nextId
    decreases |log|
  {
    if log != [] {
      var t, r := Ever(log[..|log| - 1]), log[|log| - 1];
      EverKeyed(log[..|log| - 1]);
      KeyedGrows(t.rows, RowOf(t.nextId, r));
    }
  }

  /** Eviction after every insert equals one batch selection over everything ever recorded: each
      companion's stored rows are exactly its latest 400 and its 100 most important ever. */
  lemma {:induction false} IncrementalIsBatch(log: seq<Record>, npc: string)
    ensures Play(Table({}, 0), log).nextId == Ever(log).nextId
    ensures Play(Table({}, 0), log).rows <= Ever(log).rows
    ensures Of(Play(Table({}, 0), log).rows, npc) == Kept(Of(Ever(log).rows, npc))
    ensures |Of(Play(Table({}, 0), log).rows, npc)| <= LATEST + IMPORTANT
    decreases |log|
  {
    EverKeyed(log);
    if log == [] {
      assert Of({}, npc) == {} && Kept({}) == {};
    } else {
      var init, r := log[..|log| - 1], log[|log| - 1];
      IncrementalIsBatch(init, npc);
      IncrementalIsBatch(init, r.npc);
      EverKeyed(init);
      var t, ever := Play(Table({}, 0), init), Ever(init);
      if !Blank(Cut(r.text, 240)) {
        StepIsBatch(t, ever, r, npc);
      }
    }
    KeyedSubset(Of(Ever(log).rows, npc), Ever(log).rows);
    KeptSize(Of(Ever(log).rows, npc));
  }

  lemma StepIsBatch(t: Table, ever: Table, r: Record, npc: string)
    requires t.nextId == ever.nextId && t.rows <= ever.rows && Keyed(ever.rows)
    requires forall x :: x in ever.rows ==> x.id < ever.nextId
    requires Of(t.rows, npc) == Kept(Of(ever.rows, npc)) && Of(t.rows, r.npc) == Kept(Of(ever.rows, r.npc))
    requires !Blank(Cut(r.text, 240))
    ensures Recorded(t, r).rows <= ever.rows + {RowOf(ever.nextId, r)}
    ensures Of(Recorded(t, r).rows, npc) == Kept(Of(ever.rows + {RowOf(ever.nextId, r)}, npc))
  {
    var e := RowOf(ever.nextId, r);
    KeyedGrows(ever.rows, e);
    KeyedSubset(Of(ever.rows, npc) + {e}, ever.rows + {e});
    hide Keyed;
    var rows := t.rows + {e};
    var mine := Of(rows, r.npc);
    assert mine == Of(t.rows, r.npc) + {e};
    assert Of(ever.rows + {e}, r.npc) == Of(ever.rows, r.npc) + {e};
    assert Kept(mine) <= mine;
    if npc == r.npc {
      assert Of((rows - mine) + Kept(mine), npc) == Kept(mine);
      KeptIncremental(Of(ever.rows, npc), e);
    } else {
      assert Of((rows - mine) + Kept(mine), npc) == Of(t.rows, npc);
      assert Of(ever.rows + {e}, npc) == Of(ever.rows, npc);
    }
  }

  class GoblinMind {
    var rows: set<Episode>
    var nextId: nat

    constructor ()
      ensures rows == {} && nextId == 0
    {
      rows, nextId := {}, 0;
    }

    method RecordEpisode(npc: string, kind: string, text: string, importance: real, valence: real)
      modifies this
      ensures Table(rows, nextId) == Recorded(old(Table(rows, nextId)), Record(npc, kind, text, importance, valence))
      ensures forall x: Episode :: x.npc != npc ==> (x in rows <==> x in old(rows))
    {
      var kept := if |text| <= 240 then text else text[..240];
      if forall i :: 0 <= i < |kept| ==> PySpace(kept[i]) {
        return;
      }
      var row := Episode(nextId, npc, Clamp(importance, 0.0, 1.0), Clamp(valence, -1.0, 1.0), Cut(kind, 32), kept);
      rows := rows + {row};
      nextId := nextId + 1;
      var mine := Of(rows, npc);
      var newest := Top(ById, mine, LATEST);
      var weightiest := Top(ByImportance, mine, IMPORTANT);
      rows := set x | x in rows && !(x.npc == npc && x !in newest && x !in weightiest);
    }
  }
}
