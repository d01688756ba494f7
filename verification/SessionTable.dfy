/**
 The sessions table: one row per session, created by its first request and updated in place by every
 later one (store/db.go).
 */
module SessionTable {
  import opened SessionAgents

  datatype Request = Request(session: string, agent: string, app: string, cost: real,
                             inputTokens: nat, outputTokens: nat, now: int)

  datatype Row = Row(agents: string, app: string, cost: real, inputTokens: nat, outputTokens: nat,
                     requests: nat, started: int, lastSeen: int)

  type Rows = map<string, Row>

  function Inserted(r: Request): Row {
    Row(Sanitized(r.agent), r.app, r.cost, r.inputTokens, r.outputTokens, 1, r.now, r.now)
  }

  function Updated(fold: bool, row: Row, r: Request): Row {
    Row(Extend(fold, row.agents, Sanitized(r.agent)), if r.app != "" then r.app else row.app,
        row.cost + r.cost, row.inputTokens + r.inputTokens, row.outputTokens + r.outputTokens,
        row.requests + 1, row.started, r.now)
  }

  function Upserted(fold: bool, rows: Rows, r: Request): Rows {
    rows[r.session := if r.session in rows then Updated(fold, rows[r.session], r) else Inserted(r)]
  }

  class Table {
    var rows: Rows
    const fold: bool

    constructor (fold: bool)
      ensures rows == map[] && this.fold == fold
    {
      rows := map[];
      this.fold := fold;
    }

    method InsertRequest(r: Request)
      modifies this
      ensures rows == Upserted(fold, old(rows), r)
    {
      var safeAgent := Sanitized(r.agent);
      if r.session !in rows {
        rows := rows[r.session := Row(safeAgent, r.app, r.cost, r.inputTokens, r.outputTokens, 1, r.now, r.now)];
      } else {
        var row := rows[r.session];
        var agents := row.agents;
        if safeAgent != "unknown" && agents != safeAgent && !Listed(fold, agents, safeAgent) && CommaCount(agents) < 19 {
          agents := agents + "," + safeAgent;
        }
        var app := if r.app != "" then r.app else row.app;
        rows := rows[r.session := Row(agents, app, row.cost + r.cost, row.inputTokens + r.inputTokens,
                                      row.outputTokens + r.outputTokens, row.requests + 1, row.started, r.now)];
      }
    }
  }

  // ---- Whole runs ----

  function After(fold: bool, rs: seq<Request>): Rows {
    if rs == [] then map[] else Upserted(fold, After(fold, rs[..|rs| - 1]), rs[|rs| - 1])
  }

  /** The requests of one session, in order. */
  function Of(rs: seq<Request>, session: string): (own: seq<Request>)
    ensures |own| <= |rs|
  {
    if rs == [] then []
    else Of(rs[..|rs| - 1], session) + if rs[|rs| - 1].session == session then [rs[|rs| - 1]] else []
  }

  function AgentIDs(rs: seq<Request>): (ids: seq<string>)
    ensures |ids| == |rs|
  {
    if rs == [] then [] else AgentIDs(rs[..|rs| - 1]) + [rs[|rs| - 1].agent]
  }

  function TotalCost(rs: seq<Request>): real {
    if rs == [] then 0.0 else TotalCost(rs[..|rs| - 1]) + rs[|rs| - 1].cost
  }

  function TotalInput(rs: seq<Request>): nat {
    if rs == [] then 0 else TotalInput(rs[..|rs| - 1]) + rs[|rs| - 1].inputTokens
  }

  function TotalOutput(rs: seq<Request>): nat {
    if rs == [] then 0 else TotalOutput(rs[..|rs| - 1]) + rs[|rs| - 1].outputTokens
  }

  /** The last application that a request names; if none does, the name is empty. */
  predicate IsLastApp(app: string, rs: seq<Request>) {
    || (app == "" && forall i :: 0 <= i < |rs| ==> rs[i].app == "")
    || (app != "" && exists i :: 0 <= i < |rs| && rs[i].app == app && forall j :: i < j < |rs| ==> rs[j].app == "")
  }

  /** What a row should say, computed from the session's own requests. */
  predicate Summarizes(fold: bool, row: Row, own: seq<Request>) {
    && own != [] && row.requests == |own| && row.cost == TotalCost(own)
    && row.inputTokens == TotalInput(own) && row.outputTokens == TotalOutput(own)
    && row.started == own[0].now && row.lastSeen == own[|own| - 1].now && IsLastApp(row.app, own)
    && row.agents == AfterRequests(fold, AgentIDs(own))
  }

  lemma FirstSummary(fold: bool, r: Request)
    ensures Summarizes(fold, Inserted(r), [r])
  {
    assert [r][..0] == [];
    assert TotalCost([r]) == 0.0 + r.cost;
    assert TotalInput([r]) == 0 + r.inputTokens && TotalOutput([r]) == 0 + r.outputTokens;
    assert r.app != "" ==> [r][0].app == r.app;
    assert AgentIDs([r]) == [] + [r.agent];
  }

  lemma LastAppNext(app: string, own: seq<Request>, r: Request)
    requires IsLastApp(app, own)
    ensures IsLastApp(if r.app != "" then r.app else app, own + [r])
  {
    var all := own + [r];
    assert all[|own|] == r;
    assert forall i :: 0 <= i < |own| ==> all[i] == own[i];
    if r.app == "" && app != "" {
      var i :| 0 <= i < |own| && own[i].app == app && forall j :: i < j < |own| ==> own[j].app == "";
      assert all[i].app == app;
    }
  }

  lemma NextSummary(fold: bool, row: Row, own: seq<Request>, r: Request)
    requires Summarizes(fold, row, own)
    ensures Summarizes(fold, Updated(fold, row, r), own + [r])
  {
    OneMore(own, r);
    LastAppNext(row.app, own, r);
    var ids := AgentIDs(own + [r]);
    assert ids[..|ids| - 1] == AgentIDs(own);
  }

  /**
   A session's row exists exactly if it had a request, and is made of its own requests alone: it counts
   them, adds up their cost and tokens, keeps the first and the last time and the last application named,
   and lists their agents as if no other session existed.
   */
  lemma {:induction false} RowIsMadeOfItsOwnRequests(fold: bool, rs: seq<Request>, session: string)
    ensures session in After(fold, rs) <==> Of(rs, session) != []
    ensures session in After(fold, rs) ==> Summarizes(fold, After(fold, rs)[session], Of(rs, session))
  {
    if rs != [] {
      var init, r := rs[..|rs| - 1], rs[|rs| - 1];
      RowIsMadeOfItsOwnRequests(fold, init, session);
      if r.session == session {
        var own := Of(init, session);
        if own == [] {
          assert own + [r] == [r];
          FirstSummary(fold, r);
        } else {
          NextSummary(fold, After(fold, init)[session], own, r);
        }
        assert Of(rs, session) == own + [r];
      } else {
        assert Of(init, session) + [] == Of(init, session);
        assert Of(rs, session) == Of(init, session);
      }
    }
  }

  lemma {:induction false} OneMore(own: seq<Request>, r: Request)
    ensures AgentIDs(own + [r]) == AgentIDs(own) + [r.agent]
    ensures TotalCost(own + [r]) == TotalCost(own) + r.cost
    ensures TotalInput(own + [r]) == TotalInput(own) + r.inputTokens && TotalOutput(own + [r]) == TotalOutput(own) + r.outputTokens
  {
    assert (own + [r])[..|own|] == own;
  }

  /** So every row's list is well formed, after any sequence of requests to any sessions. */
  lemma EveryListIsWellFormed(fold: bool, rs: seq<Request>, session: string)
    requires session in After(fold, rs)
    ensures WellFormed(After(fold, rs)[session].agents)
  {
    RowIsMadeOfItsOwnRequests(fold, rs, session);
    ListStaysWellFormed(fold, AgentIDs(Of(rs, session)));
  }
}
