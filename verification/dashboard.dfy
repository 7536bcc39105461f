/**
 * The technician dashboard (`src/app/page.tsx`): the reconciliation loop that
 * fills `toolStates`, the page state it feeds (list, recent logs, loading flag,
 * local cache) and the route a tool card navigates to.
 */
module Dashboard {
  import opened Wrappers
  import opened Text
  import opened ActiveTools

  /**
   * The three `forEach` passes of `fetchData` over a dictionary variable; the
   * result is the dictionary `ToolStatesOf` describes.
   */
  method BuildToolStates(technician: string, loans: Query<LoanRow>, direct: Query<Item>,
                         logs: seq<LogEntry>, now: string) returns (toolStates: ToolStates)
    ensures toolStates == ToolStatesOf(technician, loans, direct, logs, now)
  {
    toolStates := map[];
    var loanRows := Rows(loans);
    for i := 0 to |loanRows|
      invariant SeedLoans(technician, toolStates, loanRows[i..]) == SeedLoans(technician, map[], loanRows)
    {
      assert loanRows[i..][1..] == loanRows[i + 1..];
      var loan := loanRows[i];
      if loan.asset.Some? {
        var asset := loan.asset.value;
        toolStates := toolStates[asset.nama := LoanTool(technician, loan, asset)];
      }
    }
    ghost var seeded := toolStates;

    var directRows := Rows(direct);
    for i := 0 to |directRows|
      invariant AddDirect(technician, now, toolStates, directRows[i..]) == AddDirect(technician, now, seeded, directRows)
    {
      assert directRows[i..][1..] == directRows[i + 1..];
      var asset := directRows[i];
      if asset.nama !in toolStates {
        toolStates := toolStates[asset.nama := StaticTool(technician, now, asset)];
      }
    }
    ghost var added := toolStates;

    var sortedLogs := Reversed(logs);
    for i := 0 to |sortedLogs|
      invariant Replay(toolStates, sortedLogs[i..]) == Replay(added, sortedLogs)
    {
      assert sortedLogs[i..][1..] == sortedLogs[i + 1..];
      var log := sortedLogs[i];
      var itemName := log.details.itemName;
      if log.details.kind == Pinjam {
        if itemName !in toolStates {
          toolStates := toolStates[itemName := LogTool(log)];
        }
      } else if log.details.kind == Kembali {
        toolStates := toolStates - {itemName};
      }
    }
  }

  /** The dashboard's component state together with the two cached keys it writes. */
  class TechnicianDashboard {
    var technicianName: string
    var activeTools: ToolStates
    var recentLogs: seq<LogEntry>
    var loading: bool
    var cachedTools: Option<ToolStates>
    var cachedLogs: Option<seq<LogEntry>>

    /** Mounting with a stored session: the lists start from whatever the cache holds. */
    constructor (technicianName: string, cachedTools: Option<ToolStates>, cachedLogs: Option<seq<LogEntry>>)
      ensures this.technicianName == technicianName && loading
      ensures activeTools == cachedTools.GetOr(map[]) && recentLogs == cachedLogs.GetOr([])
      ensures this.cachedTools == cachedTools && this.cachedLogs == cachedLogs
    {
      this.technicianName := technicianName;
      this.cachedTools := cachedTools;
      this.cachedLogs := cachedLogs;
      activeTools := cachedTools.GetOr(map[]);
      recentLogs := cachedLogs.GetOr([]);
      loading := true;
    }

    /**
     * `fetchData` given the outcomes of its three queries and the current time.
     * A failed log query aborts before any tool list is computed or cached.
     */
    method FetchData(logsQuery: Query<LogEntry>, loans: Query<LoanRow>, direct: Query<Item>, now: string)
      modifies this
      ensures technicianName == old(technicianName)
      ensures old(technicianName) == "" ==>
        && activeTools == old(activeTools) && recentLogs == old(recentLogs) && loading == old(loading)
        && cachedTools == old(cachedTools) && cachedLogs == old(cachedLogs)
      ensures old(technicianName) != "" && logsQuery.Failed? ==>
        && activeTools == old(activeTools) && recentLogs == old(recentLogs) && !loading
        && cachedTools == old(cachedTools) && cachedLogs == old(cachedLogs)
      ensures old(technicianName) != "" && logsQuery.Ok? ==>
        && recentLogs == logsQuery.rows && cachedLogs == Some(logsQuery.rows)
        && activeTools == ToolStatesOf(technicianName, loans, direct, logsQuery.rows, now)
        && cachedTools == Some(activeTools) && !loading
    {
      if technicianName == "" {
        return;
      }
      match logsQuery
      case Failed =>
        loading := false;
      case Ok(logs) =>
        recentLogs := logs;
        cachedLogs := Some(logs);
        var toolStates := BuildToolStates(technicianName, loans, direct, logs, now);
        activeTools := toolStates;
        cachedTools := Some(toolStates);
        loading := false;
    }
  }

  // ---------------------------------------------------------------- navigation from a tool card

  /** The `id` string of a tool entry. */
  function IdText(key: ToolKey): string
  {
    match key
    case LoanKey(n) => "loan-" + Decimal(n)
    case StaticKey(n) => "static-" + Decimal(n)
    case LogKey(n) => Decimal(n)
  }

  /** The handover route segment: `item_id` when truthy, else the id without its `static-` prefix. */
  function RouteId(tool: ActiveTool): string
  {
    if tool.details.itemId.Some? && tool.details.itemId.value != 0 then Decimal(tool.details.itemId.value)
    else ReplaceFirst(IdText(tool.key), "static-", "")
  }

  lemma NoStaticInNumeral(prefix: string, n: int)
    requires forall i :: 0 <= i < |prefix| ==> prefix[i] != 's'
    ensures ReplaceFirst(prefix + Decimal(n), "static-", "") == prefix + Decimal(n)
  {
    var s := prefix + Decimal(n);
    forall i | 0 <= i < |s|
      ensures s[i] != "static-"[0]
    {
      if i >= |prefix| {
        assert s[i] == Decimal(n)[i - |prefix|];
      }
    }
    ContainsNeedsFirstChar(s, "static-");
    ReplaceFirstAbsent(s, "static-", "");
  }

  /** A directly assigned asset's card opens that asset, whether or not its id is truthy. */
  lemma RouteOfStaticTool(technician: string, now: string, asset: Item)
    ensures RouteId(StaticTool(technician, now, asset)) == Decimal(asset.id)
  {
    ReplaceFirstLeading("static-", Decimal(asset.id), "");
  }

  /** A loan's card opens the loaned asset, except that an asset id 0 falls back to the `loan-` id. */
  lemma RouteOfLoanTool(technician: string, loan: LoanRow, asset: Item)
    ensures RouteId(LoanTool(technician, loan, asset)) ==
      if asset.id != 0 then Decimal(asset.id) else "loan-" + Decimal(loan.id)
  {
    if asset.id == 0 {
      NoStaticInNumeral("loan-", loan.id);
    }
  }

  /** A card taken from a borrow log carries no item id, so it navigates by the log's own id. */
  lemma RouteOfLogTool(log: LogEntry)
    ensures RouteId(LogTool(log)) == Decimal(log.id)
  {
    NoStaticInNumeral("", log.id);
    assert "" + Decimal(log.id) == Decimal(log.id);
  }
}
