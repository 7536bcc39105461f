/**
 * The dashboard's "active tools" reconciliation (`fetchData` in `src/app/page.tsx`),
 * stated as three folds over a dictionary keyed by item name: seed from the loan
 * rows, add directly assigned assets whose name is absent, then replay the
 * activity log oldest-first (a borrow inserts if absent, a return deletes).
 */
module ActiveTools {
  import opened Wrappers
  import Catalogue

  type Item = Catalogue.Item

  const Pinjam: string := "Pinjam"
  const Kembali: string := "Kembali"
  const Baik: string := "Baik"

  /** The `details` payload of an `activity_logs` row. */
  datatype LogDetails = LogDetails(teknisi: string, kind: string, itemName: string, condition: string, photoUrl: Option<string>)

  /** An `activity_logs` row. */
  datatype LogEntry = LogEntry(id: int, createdAt: string, details: LogDetails)

  /** A `peminjaman` (loan) row with its joined `inventaris_utama` row, if any. */
  datatype LoanRow = LoanRow(id: int, peminjam: string, status: string, tanggalPinjam: string,
                             kondisiAwal: Option<string>, asset: Option<Item>)

  /** Where a tool entry came from; `IdText` renders it as the entry's `id`. */
  datatype ToolKey = LoanKey(loanId: int) | StaticKey(assetId: int) | LogKey(logId: int)

  datatype ToolDetails = ToolDetails(itemName: string, itemId: Option<int>, kind: string,
                                     teknisi: string, condition: string, photoUrl: Option<string>)

  /** One value of the `toolStates` dictionary. */
  datatype ActiveTool = ActiveTool(key: ToolKey, createdAt: string, details: ToolDetails)

  /** The outcome of one table query: rows, or an error. */
  datatype Query<T> = Ok(rows: seq<T>) | Failed

  type ToolStates = map<string, ActiveTool>

  /** The rows a query contributes; an errored query is skipped. */
  function Rows<T>(q: Query<T>): seq<T>
  {
    if q.Ok? then q.rows else []
  }

  /** JavaScript `s || fallback` on an optional string: absent or empty falls back. */
  function OrElse(s: Option<string>, fallback: string): string
  {
    if s.Some? && s.value != "" then s.value else fallback
  }

  function LoanTool(technician: string, loan: LoanRow, asset: Item): ActiveTool
  {
    ActiveTool(LoanKey(loan.id), loan.tanggalPinjam,
      ToolDetails(asset.nama, Some(asset.id), Pinjam, technician, OrElse(loan.kondisiAwal, Baik), None))
  }

  function StaticTool(technician: string, now: string, asset: Item): ActiveTool
  {
    ActiveTool(StaticKey(asset.id), OrElse(asset.updatedAt, OrElse(asset.createdAt, now)),
      ToolDetails(asset.nama, Some(asset.id), Pinjam, technician, OrElse(asset.kondisi, Baik), None))
  }

  /** A log stored as a tool entry: the log row itself. */
  function LogTool(log: LogEntry): ActiveTool
  {
    ActiveTool(LogKey(log.id), log.createdAt,
      ToolDetails(log.details.itemName, None, log.details.kind, log.details.teknisi,
                  log.details.condition, log.details.photoUrl))
  }

  // ---------------------------------------------------------------- the three passes

  function LoanStep(technician: string, m: ToolStates, loan: LoanRow): ToolStates
  {
    match loan.asset
    case None => m
    case Some(a) => m[a.nama := LoanTool(technician, loan, a)]
  }

  function SeedLoans(technician: string, m: ToolStates, loans: seq<LoanRow>): ToolStates
    decreases |loans|
  {
    if loans == [] then m else SeedLoans(technician, LoanStep(technician, m, loans[0]), loans[1..])
  }

  function DirectStep(technician: string, now: string, m: ToolStates, asset: Item): ToolStates
  {
    if asset.nama in m then m else m[asset.nama := StaticTool(technician, now, asset)]
  }

  function AddDirect(technician: string, now: string, m: ToolStates, assets: seq<Item>): ToolStates
    decreases |assets|
  {
    if assets == [] then m else AddDirect(technician, now, DirectStep(technician, now, m, assets[0]), assets[1..])
  }

  function LogStep(m: ToolStates, log: LogEntry): ToolStates
  {
    var name := log.details.itemName;
    if log.details.kind == Pinjam then
      (if name in m then m else m[name := LogTool(log)])
    else if log.details.kind == Kembali then
      m - {name}
    else
      m
  }

  /** Replays logs in the order given (the caller passes them oldest-first). */
  function Replay(m: ToolStates, logs: seq<LogEntry>): ToolStates
    decreases |logs|
  {
    if logs == [] then m else Replay(LogStep(m, logs[0]), logs[1..])
  }

  /** `[...s].reverse()`. */
  function Reversed<T>(s: seq<T>): (r: seq<T>)
    ensures |r| == |s|
  {
    if s == [] then [] else [s[|s| - 1]] + Reversed(s[..|s| - 1])
  }

  /**
   * The dictionary `fetchData` builds: loans, then direct assets, then the
   * newest-first `logs` replayed oldest-first.
   */
  function ToolStatesOf(technician: string, loans: Query<LoanRow>, direct: Query<Item>,
                        logs: seq<LogEntry>, now: string): ToolStates
  {
    Replay(AddDirect(technician, now, SeedLoans(technician, map[], Rows(loans)), Rows(direct)), Reversed(logs))
  }

  // ---------------------------------------------------------------- vocabulary for the lemmas

  /** A log entry that the replay acts on for item `name`. */
  predicate Mentions(log: LogEntry, name: string)
  {
    log.details.itemName == name && (log.details.kind == Pinjam || log.details.kind == Kembali)
  }

  predicate IsReturnOf(log: LogEntry, name: string)
  {
    log.details.itemName == name && log.details.kind == Kembali
  }

  function LoanNames(loans: seq<LoanRow>): set<string>
  {
    set l | l in loans && l.asset.Some? :: l.asset.value.nama
  }

  function DirectNames(assets: seq<Item>): set<string>
  {
    set a | a in assets :: a.nama
  }

  function BorrowNames(logs: seq<LogEntry>): set<string>
  {
    set g | g in logs && g.details.kind == Pinjam :: g.details.itemName
  }

  /** Every entry is filed under its own item name. */
  predicate NamesMatch(m: ToolStates)
  {
    forall n :: n in m ==> m[n].details.itemName == n
  }

  /** `tool` is exactly the entry one of the three sources would create. */
  predicate Derived(tool: ActiveTool, technician: string, now: string,
                    loans: seq<LoanRow>, direct: seq<Item>, logs: seq<LogEntry>)
  {
    || (exists l :: l in loans && l.asset.Some? && tool == LoanTool(technician, l, l.asset.value))
    || (exists a :: a in direct && tool == StaticTool(technician, now, a))
    || (exists g :: g in logs && g.details.kind == Pinjam && tool == LogTool(g))
  }

  predicate AllDerived(m: ToolStates, technician: string, now: string,
                       loans: seq<LoanRow>, direct: seq<Item>, logs: seq<LogEntry>)
  {
    forall n :: n in m ==> Derived(m[n], technician, now, loans, direct, logs)
  }

  // ---------------------------------------------------------------- the loan pass

  lemma {:induction false} SeedLoansKeys(technician: string, m: ToolStates, loans: seq<LoanRow>)
    ensures SeedLoans(technician, m, loans).Keys == m.Keys + LoanNames(loans)
    decreases |loans|
  {
    if loans != [] {
      var m' := LoanStep(technician, m, loans[0]);
      SeedLoansKeys(technician, m', loans[1..]);
      assert loans == [loans[0]] + loans[1..];
      assert LoanNames(loans) == LoanNames([loans[0]]) + LoanNames(loans[1..]);
    }
  }

  /** A name no loan row carries keeps whatever entry it had. */
  lemma {:induction false} SeedLoansFrame(technician: string, m: ToolStates, loans: seq<LoanRow>, name: string)
    requires name !in LoanNames(loans)
    ensures var r := SeedLoans(technician, m, loans);
      (name in r <==> name in m) && (name in m ==> r[name] == m[name])
    decreases |loans|
  {
    if loans != [] {
      assert loans[0] in loans;
      assert LoanNames(loans[1..]) <= LoanNames(loans);
      SeedLoansFrame(technician, LoanStep(technician, m, loans[0]), loans[1..], name);
    }
  }

  /** Among loan rows for the same asset name, the last one wins. */
  lemma {:induction false} SeedLoansLastWins(technician: string, m: ToolStates, loans: seq<LoanRow>, i: nat, a: Item)
    requires i < |loans| && loans[i].asset == Some(a)
    requires forall j :: i < j < |loans| && loans[j].asset.Some? ==> loans[j].asset.value.nama != a.nama
    ensures var r := SeedLoans(technician, m, loans);
      a.nama in r && r[a.nama] == LoanTool(technician, loans[i], a)
    decreases |loans|
  {
    var m' := LoanStep(technician, m, loans[0]);
    if i == 0 {
      forall l | l in loans[1..] && l.asset.Some?
        ensures l.asset.value.nama != a.nama
      {
        var j :| 0 <= j < |loans[1..]| && loans[1..][j] == l;
        assert loans[j + 1] == l;
      }
      SeedLoansFrame(technician, m', loans[1..], a.nama);
    } else {
      SeedLoansLastWins(technician, m', loans[1..], i - 1, a);
    }
  }

  // ---------------------------------------------------------------- the direct-asset pass

  /** A directly assigned asset never overwrites an entry that is already there. */
  lemma {:induction false} AddDirectKeeps(technician: string, now: string, m: ToolStates, assets: seq<Item>, name: string)
    requires name in m
    ensures var r := AddDirect(technician, now, m, assets);
      name in r && r[name] == m[name]
    decreases |assets|
  {
    if assets != [] {
      AddDirectKeeps(technician, now, DirectStep(technician, now, m, assets[0]), assets[1..], name);
    }
  }

  lemma {:induction false} AddDirectKeys(technician: string, now: string, m: ToolStates, assets: seq<Item>)
    ensures AddDirect(technician, now, m, assets).Keys == m.Keys + DirectNames(assets)
    decreases |assets|
  {
    if assets != [] {
      AddDirectKeys(technician, now, DirectStep(technician, now, m, assets[0]), assets[1..]);
      assert assets == [assets[0]] + assets[1..];
      assert DirectNames(assets) == {assets[0].nama} + DirectNames(assets[1..]);
    }
  }

  lemma {:induction false} AddDirectFrame(technician: string, now: string, m: ToolStates, assets: seq<Item>, name: string)
    requires name !in DirectNames(assets)
    ensures var r := AddDirect(technician, now, m, assets);
      (name in r <==> name in m) && (name in m ==> r[name] == m[name])
    decreases |assets|
  {
    if assets != [] {
      assert assets[0] in assets;
      assert DirectNames(assets[1..]) <= DirectNames(assets);
      AddDirectFrame(technician, now, DirectStep(technician, now, m, assets[0]), assets[1..], name);
    }
  }

  /** For a name not yet present, the first directly assigned asset with that name wins. */
  lemma {:induction false} AddDirectFirstWins(technician: string, now: string, m: ToolStates, assets: seq<Item>, i: nat)
    requires i < |assets| && assets[i].nama !in m
    requires forall j :: 0 <= j < i ==> assets[j].nama != assets[i].nama
    ensures var r := AddDirect(technician, now, m, assets);
      assets[i].nama in r && r[assets[i].nama] == StaticTool(technician, now, assets[i])
    decreases |assets|
  {
    var m' := DirectStep(technician, now, m, assets[0]);
    if i == 0 {
      AddDirectKeeps(technician, now, m', assets[1..], assets[0].nama);
    } else {
      assert assets[1..][i - 1] == assets[i];
      AddDirectFirstWins(technician, now, m', assets[1..], i - 1);
    }
  }

  // ---------------------------------------------------------------- the log replay

  /** A name no replayed log mentions keeps its entry (or its absence). */
  lemma {:induction false} ReplayFrame(m: ToolStates, logs: seq<LogEntry>, name: string)
    requires forall j :: 0 <= j < |logs| ==> !Mentions(logs[j], name)
    ensures var r := Replay(m, logs);
      (name in r <==> name in m) && (name in m ==> r[name] == m[name])
    decreases |logs|
  {
    if logs != [] {
      assert !Mentions(logs[0], name);
      ReplayFrame(LogStep(m, logs[0]), logs[1..], name);
    }
  }

  /** The last log (in replay order) that mentions a name decides whether it is present. */
  lemma {:induction false} ReplayLastDecides(m: ToolStates, logs: seq<LogEntry>, i: nat, name: string)
    requires i < |logs| && Mentions(logs[i], name)
    requires forall j :: i < j < |logs| ==> !Mentions(logs[j], name)
    ensures name in Replay(m, logs) <==> logs[i].details.kind == Pinjam
    decreases |logs|
  {
    var m' := LogStep(m, logs[0]);
    if i == 0 {
      forall j | 0 <= j < |logs[1..]|
        ensures !Mentions(logs[1..][j], name)
      {
        assert logs[1..][j] == logs[j + 1];
      }
      ReplayFrame(m', logs[1..], name);
    } else {
      forall j | i - 1 < j < |logs[1..]|
        ensures !Mentions(logs[1..][j], name)
      {
        assert logs[1..][j] == logs[j + 1];
      }
      ReplayLastDecides(m', logs[1..], i - 1, name);
    }
  }

  /** A borrow log never replaces an entry: without a return, the entry survives unchanged. */
  lemma {:induction false} ReplayNeverReplaces(m: ToolStates, logs: seq<LogEntry>, name: string)
    requires name in m
    requires forall j :: 0 <= j < |logs| ==> !IsReturnOf(logs[j], name)
    ensures var r := Replay(m, logs);
      name in r && r[name] == m[name]
    decreases |logs|
  {
    if logs != [] {
      assert !IsReturnOf(logs[0], name);
      forall j | 0 <= j < |logs[1..]|
        ensures !IsReturnOf(logs[1..][j], name)
      {
        assert logs[1..][j] == logs[j + 1];
      }
      ReplayNeverReplaces(LogStep(m, logs[0]), logs[1..], name);
    }
  }

  /** Replaying `a` then `b` is replaying `a + b`: the replay can be cut at any log. */
  lemma {:induction false} ReplayAppend(m: ToolStates, a: seq<LogEntry>, b: seq<LogEntry>)
    ensures Replay(m, a + b) == Replay(Replay(m, a), b)
    decreases |a|
  {
    if a == [] {
      assert a + b == b;
    } else {
      assert (a + b)[0] == a[0];
      assert (a + b)[1..] == a[1..] + b;
      ReplayAppend(LogStep(m, a[0]), a[1..], b);
    }
  }

  /**
   * A borrow log that finds its name absent stores itself, and with no return
   * log after it that entry is the one left at the end.
   */
  lemma ReplayFirstBorrowWins(m: ToolStates, s: seq<LogEntry>, q: nat, name: string)
    requires q < |s| && s[q].details.kind == Pinjam && s[q].details.itemName == name
    requires name !in Replay(m, s[..q])
    requires forall t :: q < t < |s| ==> !IsReturnOf(s[t], name)
    ensures var r := Replay(m, s);
      name in r && r[name] == LogTool(s[q])
  {
    var before := Replay(m, s[..q]);
    assert s == s[..q] + s[q..];
    ReplayAppend(m, s[..q], s[q..]);
    var rest := s[q + 1..];
    assert s[q..][0] == s[q] && s[q..][1..] == rest;
    forall t | 0 <= t < |rest|
      ensures !IsReturnOf(rest[t], name)
    {
      assert rest[t] == s[q + 1 + t];
    }
    ReplayNeverReplaces(LogStep(before, s[q]), rest, name);
  }

  lemma {:induction false} ReplayKeys(m: ToolStates, logs: seq<LogEntry>)
    ensures Replay(m, logs).Keys <= m.Keys + BorrowNames(logs)
    decreases |logs|
  {
    if logs != [] {
      ReplayKeys(LogStep(m, logs[0]), logs[1..]);
      assert logs == [logs[0]] + logs[1..];
      assert BorrowNames(logs) == BorrowNames([logs[0]]) + BorrowNames(logs[1..]);
    }
  }

  // ---------------------------------------------------------------- invariants of all three passes

  lemma {:induction false} NamesMatchPreserved(technician: string, now: string, m: ToolStates,
                                               loans: seq<LoanRow>, assets: seq<Item>, logs: seq<LogEntry>)
    requires NamesMatch(m)
    ensures NamesMatch(SeedLoans(technician, m, loans))
    ensures NamesMatch(AddDirect(technician, now, m, assets))
    ensures NamesMatch(Replay(m, logs))
    decreases |loans| + |assets| + |logs|
  {
    if loans != [] {
      NamesMatchPreserved(technician, now, LoanStep(technician, m, loans[0]), loans[1..], [], []);
    }
    if assets != [] {
      NamesMatchPreserved(technician, now, DirectStep(technician, now, m, assets[0]), [], assets[1..], []);
    }
    if logs != [] {
      NamesMatchPreserved(technician, now, LogStep(m, logs[0]), [], [], logs[1..]);
    }
  }

  lemma {:induction false} SeedLoansDerived(technician: string, now: string, m: ToolStates, part: seq<LoanRow>,
                                            loans: seq<LoanRow>, direct: seq<Item>, logs: seq<LogEntry>)
    requires AllDerived(m, technician, now, loans, direct, logs)
    requires forall l :: l in part ==> l in loans
    ensures AllDerived(SeedLoans(technician, m, part), technician, now, loans, direct, logs)
    decreases |part|
  {
    if part != [] {
      var l := part[0];
      assert l in loans;
      SeedLoansDerived(technician, now, LoanStep(technician, m, l), part[1..], loans, direct, logs);
    }
  }

  lemma {:induction false} AddDirectDerived(technician: string, now: string, m: ToolStates, part: seq<Item>,
                                            loans: seq<LoanRow>, direct: seq<Item>, logs: seq<LogEntry>)
    requires AllDerived(m, technician, now, loans, direct, logs)
    requires forall a :: a in part ==> a in direct
    ensures AllDerived(AddDirect(technician, now, m, part), technician, now, loans, direct, logs)
    decreases |part|
  {
    if part != [] {
      var a := part[0];
      assert a in direct;
      AddDirectDerived(technician, now, DirectStep(technician, now, m, a), part[1..], loans, direct, logs);
    }
  }

  lemma {:induction false} ReplayDerived(technician: string, now: string, m: ToolStates, part: seq<LogEntry>,
                                         loans: seq<LoanRow>, direct: seq<Item>, logs: seq<LogEntry>)
    requires AllDerived(m, technician, now, loans, direct, logs)
    requires forall g :: g in part ==> g in logs
    ensures AllDerived(Replay(m, part), technician, now, loans, direct, logs)
    decreases |part|
  {
    if part != [] {
      var g := part[0];
      assert g in logs;
      ReplayDerived(technician, now, LogStep(m, g), part[1..], loans, direct, logs);
    }
  }

  // ---------------------------------------------------------------- reversal

  lemma {:induction false} ReversedAt<T>(s: seq<T>, k: nat)
    requires k < |s|
    ensures Reversed(s)[k] == s[|s| - 1 - k]
    decreases |s|
  {
    if k > 0 {
      ReversedAt(s[..|s| - 1], k - 1);
    }
  }

  lemma ReversedSameElements<T>(s: seq<T>)
    ensures forall x :: x in Reversed(s) <==> x in s
  {
    forall x | x in Reversed(s)
      ensures x in s
    {
      var k :| 0 <= k < |Reversed(s)| && Reversed(s)[k] == x;
      ReversedAt(s, k);
    }
    forall x | x in s
      ensures x in Reversed(s)
    {
      var k :| 0 <= k < |s| && s[k] == x;
      ReversedAt(s, |s| - 1 - k);
    }
  }

  // ---------------------------------------------------------------- properties of the whole routine

  /**
   * The dictionary holds at most one tool per item name, and every entry is
   * exactly what a loan row with a joined asset, a directly assigned asset, or a
   * borrow log would create.
   */
  lemma ToolStatesWellFormed(technician: string, loans: Query<LoanRow>, direct: Query<Item>,
                             logs: seq<LogEntry>, now: string)
    ensures var r := ToolStatesOf(technician, loans, direct, logs, now);
      && NamesMatch(r)
      && AllDerived(r, technician, now, Rows(loans), Rows(direct), logs)
      && r.Keys <= LoanNames(Rows(loans)) + DirectNames(Rows(direct)) + BorrowNames(logs)
  {
    var seeded := SeedLoans(technician, map[], Rows(loans));
    var added := AddDirect(technician, now, seeded, Rows(direct));
    var r := Replay(added, Reversed(logs));
    NamesMatchPreserved(technician, now, map[], Rows(loans), [], []);
    NamesMatchPreserved(technician, now, seeded, [], Rows(direct), []);
    NamesMatchPreserved(technician, now, added, [], [], Reversed(logs));
    SeedLoansDerived(technician, now, map[], Rows(loans), Rows(loans), Rows(direct), logs);
    AddDirectDerived(technician, now, seeded, Rows(direct), Rows(loans), Rows(direct), logs);
    ReversedSameElements(logs);
    ReplayDerived(technician, now, added, Reversed(logs), Rows(loans), Rows(direct), logs);
    SeedLoansKeys(technician, map[], Rows(loans));
    AddDirectKeys(technician, now, seeded, Rows(direct));
    ReplayKeys(added, Reversed(logs));
    assert BorrowNames(Reversed(logs)) == BorrowNames(logs);
  }

  /**
   * Logs arrive newest-first; the newest log that borrows or returns an item
   * decides whether that item is listed, whatever the loan and assignment rows say.
   */
  lemma NewestLogDecides(technician: string, loans: Query<LoanRow>, direct: Query<Item>,
                         logs: seq<LogEntry>, now: string, j: nat, name: string)
    requires j < |logs| && Mentions(logs[j], name)
    requires forall k :: 0 <= k < j ==> !Mentions(logs[k], name)
    ensures name in ToolStatesOf(technician, loans, direct, logs, now) <==> logs[j].details.kind == Pinjam
  {
    var r := Reversed(logs);
    var i := |logs| - 1 - j;
    ReversedAt(logs, i);
    forall k | i < k < |r|
      ensures !Mentions(r[k], name)
    {
      ReversedAt(logs, k);
    }
    ReplayLastDecides(AddDirect(technician, now, SeedLoans(technician, map[], Rows(loans)), Rows(direct)), r, i, name);
  }

  /**
   * Precedence: the last loan row for an asset name is listed as is. A directly
   * assigned asset with the same name and a borrow log for it leave it untouched;
   * only a return log can remove it.
   */
  lemma LoanEntryListed(technician: string, loans: seq<LoanRow>, direct: Query<Item>,
                        logs: seq<LogEntry>, now: string, i: nat, a: Item)
    requires i < |loans| && loans[i].asset == Some(a)
    requires forall j :: i < j < |loans| && loans[j].asset.Some? ==> loans[j].asset.value.nama != a.nama
    requires forall k :: 0 <= k < |logs| ==> !IsReturnOf(logs[k], a.nama)
    ensures var r := ToolStatesOf(technician, Ok(loans), direct, logs, now);
      && a.nama in r
      && r[a.nama] == LoanTool(technician, loans[i], a)
      && r[a.nama].key == LoanKey(loans[i].id)
      && r[a.nama].details.condition == (if loans[i].kondisiAwal.Some? && loans[i].kondisiAwal.value != ""
                                         then loans[i].kondisiAwal.value else "Baik")
  {
    var seeded := SeedLoans(technician, map[], loans);
    SeedLoansLastWins(technician, map[], loans, i, a);
    AddDirectKeeps(technician, now, seeded, Rows(direct), a.nama);
    forall k | 0 <= k < |Reversed(logs)|
      ensures !IsReturnOf(Reversed(logs)[k], a.nama)
    {
      ReversedAt(logs, k);
    }
    ReplayNeverReplaces(AddDirect(technician, now, seeded, Rows(direct)), Reversed(logs), a.nama);
  }

  /**
   * A directly assigned asset whose name no loan row carries is listed as the
   * first such asset (condition defaulting to "Baik") unless a return log removes it.
   */
  lemma DirectEntryListed(technician: string, loans: Query<LoanRow>, direct: seq<Item>,
                          logs: seq<LogEntry>, now: string, i: nat)
    requires i < |direct| && direct[i].nama !in LoanNames(Rows(loans))
    requires forall j :: 0 <= j < i ==> direct[j].nama != direct[i].nama
    requires forall k :: 0 <= k < |logs| ==> !IsReturnOf(logs[k], direct[i].nama)
    ensures var r := ToolStatesOf(technician, loans, Ok(direct), logs, now);
      && direct[i].nama in r
      && r[direct[i].nama] == StaticTool(technician, now, direct[i])
      && r[direct[i].nama].key == StaticKey(direct[i].id)
      && r[direct[i].nama].details.condition == (if direct[i].kondisi.Some? && direct[i].kondisi.value != ""
                                                 then direct[i].kondisi.value else "Baik")
  {
    var seeded := SeedLoans(technician, map[], Rows(loans));
    SeedLoansFrame(technician, map[], Rows(loans), direct[i].nama);
    AddDirectFirstWins(technician, now, seeded, direct, i);
    forall k | 0 <= k < |Reversed(logs)|
      ensures !IsReturnOf(Reversed(logs)[k], direct[i].nama)
    {
      ReversedAt(logs, k);
    }
    ReplayNeverReplaces(AddDirect(technician, now, seeded, direct), Reversed(logs), direct[i].nama);
  }

  /**
   * An item that no loan row, no assigned asset and no log mentions is not listed;
   * in particular, with no rows at all and no borrow log, the list is empty.
   */
  lemma UnmentionedNotListed(technician: string, loans: Query<LoanRow>, direct: Query<Item>,
                             logs: seq<LogEntry>, now: string, name: string)
    requires name !in LoanNames(Rows(loans)) && name !in DirectNames(Rows(direct))
    requires forall k :: 0 <= k < |logs| ==> !Mentions(logs[k], name)
    ensures name !in ToolStatesOf(technician, loans, direct, logs, now)
  {
    var seeded := SeedLoans(technician, map[], Rows(loans));
    SeedLoansFrame(technician, map[], Rows(loans), name);
    AddDirectFrame(technician, now, seeded, Rows(direct), name);
    forall k | 0 <= k < |Reversed(logs)|
      ensures !Mentions(Reversed(logs)[k], name)
    {
      ReversedAt(logs, k);
    }
    ReplayFrame(AddDirect(technician, now, seeded, Rows(direct)), Reversed(logs), name);
  }

  /** A failed loan or direct-asset query contributes exactly what no rows would. */
  lemma FailedQueriesContributeNothing(technician: string, loans: Query<LoanRow>, direct: Query<Item>,
                                       logs: seq<LogEntry>, now: string)
    ensures ToolStatesOf(technician, Failed, direct, logs, now) == ToolStatesOf(technician, Ok([]), direct, logs, now)
    ensures ToolStatesOf(technician, loans, Failed, logs, now) == ToolStatesOf(technician, loans, Ok([]), logs, now)
  {
  }

  /** The newest log (smallest index) that borrows or returns `name`, given that log `k` does. */
  lemma NewestMention(logs: seq<LogEntry>, name: string, k: nat) returns (j: nat)
    requires k < |logs| && Mentions(logs[k], name)
    ensures j <= k && Mentions(logs[j], name)
    ensures forall i :: 0 <= i < j ==> !Mentions(logs[i], name)
  {
    j := 0;
    while !Mentions(logs[j], name)
      invariant j <= k
      invariant forall i :: 0 <= i < j ==> !Mentions(logs[i], name)
      decreases k - j
    {
      j := j + 1;
    }
  }

  /**
   * Without loan or assignment rows, a list in which every borrow log is
   * followed (newer, so at a smaller index) by a return of the same item lists nothing.
   */
  lemma NoSourcesNoTools(technician: string, loans: Query<LoanRow>, direct: Query<Item>,
                         logs: seq<LogEntry>, now: string)
    requires Rows(loans) == [] && Rows(direct) == []
    requires forall k :: 0 <= k < |logs| && logs[k].details.kind == Pinjam ==>
      exists j :: 0 <= j < k && IsReturnOf(logs[j], logs[k].details.itemName)
    ensures ToolStatesOf(technician, loans, direct, logs, now) == map[]
  {
    var r := ToolStatesOf(technician, loans, direct, logs, now);
    ToolStatesWellFormed(technician, loans, direct, logs, now);
    forall name
      ensures name !in r
    {
      if name in BorrowNames(logs) {
        var g :| g in logs && g.details.kind == Pinjam && g.details.itemName == name;
        var k :| 0 <= k < |logs| && logs[k] == g;
        var j := NewestMention(logs, name, k);
        assert logs[j].details.kind != Pinjam;
        NewestLogDecides(technician, loans, direct, logs, now, j, name);
      }
    }
    assert r.Keys == {};
  }

  /**
   * Which borrow log supplies an entry. With logs newest-first, `j` is the newest
   * return of `name` (`|logs|` when there is none) and `k` the oldest borrow of
   * `name` newer than it. Replayed oldest-first, that borrow finds the name absent
   * (a return just removed it, or no loan or assignment row carries it), stores
   * itself, and no later borrow replaces it: its id and date are the card's.
   */
  lemma LogEntryListed(technician: string, loans: Query<LoanRow>, direct: Query<Item>,
                       logs: seq<LogEntry>, now: string, k: nat, j: nat, name: string)
    requires k < j <= |logs|
    requires logs[k].details.kind == Pinjam && logs[k].details.itemName == name
    requires forall i :: k < i < j ==> !Mentions(logs[i], name)
    requires forall i :: 0 <= i < j ==> !IsReturnOf(logs[i], name)
    requires j < |logs| ==> IsReturnOf(logs[j], name)
    requires j == |logs| ==> name !in LoanNames(Rows(loans)) && name !in DirectNames(Rows(direct))
    ensures var r := ToolStatesOf(technician, loans, direct, logs, now);
      && name in r
      && r[name] == LogTool(logs[k])
      && r[name].key == LogKey(logs[k].id)
      && r[name].createdAt == logs[k].createdAt
  {
    var n := |logs|;
    var rev := Reversed(logs);
    var q := n - 1 - k;
    var seeded := SeedLoans(technician, map[], Rows(loans));
    var added := AddDirect(technician, now, seeded, Rows(direct));
    ReversedAt(logs, q);
    assert name !in Replay(added, rev[..q]) by {
      if j < n {
        var p := n - 1 - j;
        ReversedAt(logs, p);
        assert rev[..q][p] == logs[j];
        forall t | p < t < |rev[..q]|
          ensures !Mentions(rev[..q][t], name)
        {
          ReversedAt(logs, t);
        }
        ReplayLastDecides(added, rev[..q], p, name);
      } else {
        SeedLoansFrame(technician, map[], Rows(loans), name);
        AddDirectFrame(technician, now, seeded, Rows(direct), name);
        forall t | 0 <= t < |rev[..q]|
          ensures !Mentions(rev[..q][t], name)
        {
          ReversedAt(logs, t);
        }
        ReplayFrame(added, rev[..q], name);
      }
    }
    forall t | q < t < |rev|
      ensures !IsReturnOf(rev[t], name)
    {
      ReversedAt(logs, t);
    }
    ReplayFirstBorrowWins(added, rev, q, name);
  }

  /**
   * Borrow A, borrow B, return A (oldest first; the query hands them over newest
   * first) against empty loan and assignment rows lists exactly B.
   */
  lemma BorrowBorrowReturnScenario(technician: string, now: string, a: string, b: string,
                                   borrowA: LogEntry, borrowB: LogEntry, returnA: LogEntry)
    requires a != b
    requires borrowA.details.kind == Pinjam && borrowA.details.itemName == a
    requires borrowB.details.kind == Pinjam && borrowB.details.itemName == b
    requires returnA.details.kind == Kembali && returnA.details.itemName == a
    ensures ToolStatesOf(technician, Ok([]), Ok([]), [returnA, borrowB, borrowA], now).Keys == {b}
  {
    var logs := [returnA, borrowB, borrowA];
    NewestLogDecides(technician, Ok([]), Ok([]), logs, now, 0, a);
    NewestLogDecides(technician, Ok([]), Ok([]), logs, now, 1, b);
    ToolStatesWellFormed(technician, Ok([]), Ok([]), logs, now);
    assert BorrowNames(logs) == {a, b};
  }

  /**
   * A technician with an active loan row for an asset whose newest log is a
   * return does not see that asset, although the loan row still says borrowed.
   */
  lemma ReturnLogHidesActiveLoan(technician: string, now: string, loan: LoanRow, a: Item,
                                 returnLog: LogEntry, older: seq<LogEntry>)
    requires loan.asset == Some(a)
    requires returnLog.details.kind == Kembali && returnLog.details.itemName == a.nama
    ensures a.nama !in ToolStatesOf(technician, Ok([loan]), Ok([]), [returnLog] + older, now)
  {
    NewestLogDecides(technician, Ok([loan]), Ok([]), [returnLog] + older, now, 0, a.nama);
  }
}
