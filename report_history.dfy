/**
 * The client-side report history (lib/history.ts): an ordered list of reports
 * kept in one browser-storage slot, newest first.
 *
 * The list transformations the store performs (prepend, find the first entry
 * with an id, keep the entries without an id) are functions on sequences; the
 * store itself is a class whose fields are the browser guard and the slot.
 */
module ReportHistory {
  import opened Wrappers

  /** The storage key under which the whole history is kept. */
  const HistoryKey: string := "xray-report-history"

  /** The three free-text parts of a generated report. */
  datatype ReportBody = ReportBody(findings: string, impression: string, recommendation: string)

  /** One entry of the history; `id` is an opaque equality key supplied by the caller. */
  datatype Report = Report(
    id: string,
    timestamp: string,
    filename: string,
    imageUrl: string,
    report: ReportBody)

  /**
   * What the storage slot holds, as reading and decoding it sees it.
   * Absent: `getItem` gives null or the empty string (both falsy).
   * Stored: the text decodes to a list of reports.
   * Undecodable: the text makes the JSON decoder throw.
   */
  datatype Slot = Absent | Stored(reports: seq<Report>) | Undecodable

  /** No two entries share an id. The store does not maintain this by itself. */
  predicate UniqueIds(h: seq<Report>) {
    forall i, j :: 0 <= i < j < |h| ==> h[i].id != h[j].id
  }

  // ---------------------------------------------------------------------------
  // List operations used inside the store

  /** `history.find(report => report.id === id)`: the first entry with the given id. */
  function FindById(h: seq<Report>, id: string): (r: Option<Report>)
    ensures r.Some? ==> r.value in h && r.value.id == id
    ensures r.None? <==> forall x | x in h :: x.id != id
  {
    if h == [] then None
    else if h[0].id == id then Some(h[0])
    else FindById(h[1..], id)
  }

  /** `history.filter(report => report.id !== id)`: every entry whose id differs. */
  function RemoveId(h: seq<Report>, id: string): (r: seq<Report>)
    ensures |r| <= |h|
    ensures forall x :: x in r <==> x in h && x.id != id
  {
    if h == [] then []
    else if h[0].id == id then RemoveId(h[1..], id)
    else [h[0]] + RemoveId(h[1..], id)
  }

  /** The entry FindById returns is the earliest one carrying the id. */
  lemma {:induction false} FindByIdIsFirst(h: seq<Report>, id: string, i: nat)
    requires i < |h| && h[i].id == id
    requires forall j :: 0 <= j < i ==> h[j].id != id
    ensures FindById(h, id) == Some(h[i])
  {
    if i > 0 {
      FindByIdIsFirst(h[1..], id, i - 1);
    }
  }

  /** Filtering keeps the relative order: it distributes over concatenation. */
  lemma {:induction false} RemoveIdConcat(a: seq<Report>, b: seq<Report>, id: string)
    ensures RemoveId(a + b, id) == RemoveId(a, id) + RemoveId(b, id)
  {
    if a == [] {
      assert a + b == b;
    } else {
      assert (a + b)[0] == a[0] && (a + b)[1..] == a[1..] + b;
      RemoveIdConcat(a[1..], b, id);
    }
  }

  /** Filtering keeps every other entry as often as it occurred and drops the id's entries. */
  lemma {:induction false} RemoveIdCount(h: seq<Report>, id: string, x: Report)
    ensures multiset(RemoveId(h, id))[x] == if x.id == id then 0 else multiset(h)[x]
  {
    if h != [] {
      RemoveIdCount(h[1..], id, x);
      assert h == [h[0]] + h[1..];
    }
  }

  /** Deleting leaves the list as it was exactly when no entry carries the id. */
  lemma {:induction false} RemoveIdUnchanged(h: seq<Report>, id: string)
    ensures RemoveId(h, id) == h <==> FindById(h, id).None?
  {
    if h != [] {
      RemoveIdUnchanged(h[1..], id);
      if h[0].id == id {
        assert h[0] in h && h[0] !in RemoveId(h, id);
      } else {
        assert h == [h[0]] + h[1..];
      }
    }
  }

  /** Deleting one id does not change what a lookup of any other id finds. */
  lemma {:induction false} FindByIdAfterRemove(h: seq<Report>, id: string, other: string)
    requires other != id
    ensures FindById(RemoveId(h, id), other) == FindById(h, other)
  {
    if h != [] {
      FindByIdAfterRemove(h[1..], id, other);
    }
  }

  /** Prepending keeps ids unique exactly when the new id is not yet in the list. */
  lemma UniqueIdsPrepend(r: Report, h: seq<Report>)
    ensures UniqueIds([r] + h) <==> UniqueIds(h) && FindById(h, r.id).None?
  {
    var s := [r] + h;
    if UniqueIds(s) {
      forall i, j | 0 <= i < j < |h| ensures h[i].id != h[j].id {
        assert s[i + 1] == h[i] && s[j + 1] == h[j];
      }
      forall x | x in h ensures x.id != r.id {
        var k :| 0 <= k < |h| && h[k] == x;
        assert s[0] == r && s[k + 1] == x;
      }
    }
    if UniqueIds(h) && FindById(h, r.id).None? {
      forall i, j | 0 <= i < j < |s| ensures s[i].id != s[j].id {
        if i == 0 {
          assert s[j] == h[j - 1] && s[j] in h;
        } else {
          assert s[i] == h[i - 1] && s[j] == h[j - 1];
        }
      }
    }
  }

  /** Deleting by id keeps ids unique. */
  lemma {:induction false} UniqueIdsRemove(h: seq<Report>, id: string)
    requires UniqueIds(h)
    ensures UniqueIds(RemoveId(h, id))
  {
    if h != [] {
      assert h == [h[0]] + h[1..];
      UniqueIdsPrepend(h[0], h[1..]);
      UniqueIdsRemove(h[1..], id);
      if h[0].id != id {
        UniqueIdsPrepend(h[0], RemoveId(h[1..], id));
      }
    }
  }

  /** Saving a report whose id is new and then deleting that id restores the list. */
  lemma {:induction false} SaveThenDeleteRestores(r: Report, h: seq<Report>)
    requires FindById(h, r.id).None?
    ensures RemoveId([r] + h, r.id) == h
  {
    assert ([r] + h)[1..] == h;
    RemoveIdUnchanged(h, r.id);
  }

  // ---------------------------------------------------------------------------
  // The store

  /**
   * The history store. `available` stands for the guard `typeof window !==
   * "undefined"`; `slot` is what the slot under HistoryKey
   * (`"xray-report-history"`) decodes to.
   * A write that the storage refuses (setItem or removeItem throwing, for
   * instance when the quota is exceeded) is caught by the source and leaves the
   * slot as it was; the storage's verdict is a parameter of each mutator.
   */
  class HistoryStore {
    var available: bool
    var slot: Slot

    constructor (inBrowser: bool, initial: Slot)
      ensures available == inBrowser && slot == initial
    {
      available := inBrowser;
      slot := initial;
    }

    /** getHistory: the decoded list, or the empty list outside a browser or when the slot is absent or undecodable. */
    function GetHistory(): (h: seq<Report>)
      reads this
      ensures available && slot.Stored? ==> h == slot.reports
      ensures !available || slot.Absent? || slot.Undecodable? ==> h == []
    {
      if !available then []
      else match slot
        case Absent => []
        case Stored(reports) => reports
        case Undecodable => []
    }

    /** getReportById: the first report with the id, or null; outside a browser always null. */
    function GetReportById(id: string): (r: Option<Report>)
      reads this
      ensures !available ==> r.None?
      ensures r.Some? ==> r.value in GetHistory() && r.value.id == id
      ensures r.None? <==> forall x | x in GetHistory() :: x.id != id
    {
      if !available then None
      else FindById(GetHistory(), id)
    }

    /** saveToHistory: store the report in front of the current list; no duplicate check. */
    method SaveToHistory(report: Report, writeSucceeds: bool)
      modifies this
      ensures available == old(available)
      ensures slot == if old(available) && writeSucceeds
                      then Stored([report] + old(GetHistory()))
                      else old(slot)
      ensures old(available) && writeSucceeds ==>
                GetHistory()[0] == report && GetHistory()[1..] == old(GetHistory())
                && GetReportById(report.id) == Some(report)
    {
      if !available {
        return;
      }
      var history := GetHistory();
      var updatedHistory := [report] + history;
      if writeSucceeds {
        slot := Stored(updatedHistory);
      }
    }

    /** deleteReportById: rewrite the slot with every entry whose id differs. */
    method DeleteReportById(id: string, writeSucceeds: bool)
      modifies this
      ensures available == old(available)
      ensures slot == if old(available) && writeSucceeds
                      then Stored(RemoveId(old(GetHistory()), id))
                      else old(slot)
      ensures old(available) && writeSucceeds ==>
                GetReportById(id).None?
                && (forall other | other != id :: GetReportById(other) == old(GetReportById(other)))
    {
      if !available {
        return;
      }
      var history := GetHistory();
      var updatedHistory := RemoveId(history, id);
      if writeSucceeds {
        slot := Stored(updatedHistory);
        forall other | other != id
          ensures GetReportById(other) == old(GetReportById(other))
        {
          FindByIdAfterRemove(history, id, other);
        }
      }
    }

    /** clearHistory: remove the slot altogether. */
    method ClearHistory(removeSucceeds: bool)
      modifies this
      ensures available == old(available)
      ensures slot == if old(available) && removeSucceeds then Absent else old(slot)
      ensures old(available) && removeSucceeds ==>
                GetHistory() == [] && forall id :: GetReportById(id).None?
    {
      if !available {
        return;
      }
      if removeSucceeds {
        slot := Absent;
      }
    }
  }

  /**
   * A client of the store: two saves, a lookup, a delete and a clear, checked
   * against the specifications above only.
   */
  method HistoryWalkthrough(f1: ReportBody, f2: ReportBody)
  {
    var r1 := Report("1", "2024-01-01T00:00:00Z", "chest1.png", "data:", f1);
    var r2 := Report("2", "2024-01-01T00:00:01Z", "chest2.png", "data:", f2);
    var store := new HistoryStore(true, Absent);
    assert store.GetHistory() == [];
    store.SaveToHistory(r1, true);
    store.SaveToHistory(r2, true);
    assert store.GetHistory() == [r2, r1];
    assert store.GetReportById("1") == Some(r1);
    store.DeleteReportById("1", true);
    assert store.GetHistory() == [r2];
    // A second save under an existing id keeps both entries; the lookup finds the newer one.
    var r2b := Report("2", "2024-01-01T00:00:02Z", "chest2b.png", "data:", f1);
    store.SaveToHistory(r2b, true);
    assert store.GetHistory() == [r2b, r2] && store.GetReportById("2") == Some(r2b);
    store.DeleteReportById("2", true);
    assert store.GetHistory() == [];
    store.SaveToHistory(r2, true);
    store.SaveToHistory(r1, false);
    assert store.GetHistory() == [r2];
    store.ClearHistory(true);
    assert store.GetHistory() == [] && store.slot == Absent;
    // Deleting from an absent slot writes an empty list instead of leaving it absent.
    store.DeleteReportById("9", true);
    assert store.slot == Stored([]);
    // Saving over an undecodable slot replaces it with a one-entry list.
    var broken := new HistoryStore(true, Undecodable);
    broken.SaveToHistory(r1, true);
    assert broken.slot == Stored([r1]);
    // Outside a browser nothing is read or written.
    var server := new HistoryStore(false, Stored([r1]));
    server.ClearHistory(true);
    assert server.slot == Stored([r1]) && server.GetReportById("1").None?;
  }
}
