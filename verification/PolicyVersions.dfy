/** Versioned policy rows: a name has at most one live row, old rows are never rewritten. */
module PolicyVersions {
  import opened FusionTypes

  /** The fields that validation and the table's check constraints look at. */
  datatype Settings = Settings(
    secondFaceConfirmationFrames: int,
    gazeMinDurationMs: int,
    gazeWindowSeconds: int,
    gazeWarningLimit: int,
    gazeTerminationLimit: int,
    mediumScoreTerminationThreshold: real,
    livenessCheckEnabled: bool,
    livenessCheckAction: Option<LivenessAction>,
    livenessScoreThreshold: real,
    livenessConfirmationFrames: int,
    identitySimilarityThreshold: real,
    identityConfirmationFrames: int,
    audioSpeechRatioThreshold: real
  )

  datatype Request = Request(name: string, isActive: bool, retirePrevious: bool, settings: Settings, createdBy: nat)

  datatype PolicyRow = PolicyRow(
    name: string, version: int, isActive: bool, retiredAt: Option<int>, settings: Settings, createdBy: nat)

  type Rows = seq<PolicyRow>

  datatype Outcome =
    | Invalid
    | SeveralLive       // the lookup of the live row finds more than one
    | AlreadyActive
    | Violated          // the insert or the commit is refused
    | Created(row: nat, superseded: Option<nat>)

  predicate InUnit(x: real) {
    0.0 <= x <= 1.0
  }

  predicate ValidRequest(s: Settings) {
    && s.gazeWarningLimit <= s.gazeTerminationLimit
    && s.gazeMinDurationMs <= s.gazeWindowSeconds * 1000
    && 0.0 <= s.mediumScoreTerminationThreshold
    && (s.livenessCheckEnabled ==> s.livenessCheckAction.Some?)
    && InUnit(s.livenessScoreThreshold) && InUnit(s.identitySimilarityThreshold) && InUnit(s.audioSpeechRatioThreshold)
  }

  /** The check constraints that validation does not repeat. */
  predicate MeetsChecks(s: Settings) {
    && 0 <= s.gazeMinDurationMs && 0 < s.gazeWindowSeconds && 0 <= s.gazeWarningLimit && 0 < s.gazeTerminationLimit
    && 0 < s.secondFaceConfirmationFrames && 0 < s.livenessConfirmationFrames && 0 < s.identityConfirmationFrames
  }

  predicate IsLive(r: PolicyRow, name: string) {
    r.name == name && r.isActive && r.retiredAt == None
  }

  /** The positions of the live rows of a name, in insertion order. */
  function LiveRows(rows: Rows, name: string): (live: seq<nat>)
    ensures forall i :: 0 <= i < |live| ==> live[i] < |rows| && IsLive(rows[live[i]], name)
    ensures forall k :: 0 <= k < |rows| && IsLive(rows[k], name) ==> k in live
    ensures forall i, j :: 0 <= i < j < |live| ==> live[i] < live[j]
  {
    if |rows| == 0 then []
    else
      LiveRows(rows[..|rows| - 1], name) + (if IsLive(rows[|rows| - 1], name) then [|rows| - 1] else [])
  }

  /** The partial unique index over live rows. */
  predicate AtMostOneLive(rows: Rows) {
    forall j, k :: 0 <= j < k < |rows| ==> IsLive(rows[j], rows[j].name) && IsLive(rows[k], rows[k].name) ==>
      rows[j].name != rows[k].name
  }

  function MaxVersion(rows: Rows, name: string): int {
    if |rows| == 0 then 0
    else
      var m, r := MaxVersion(rows[..|rows| - 1], name), rows[|rows| - 1];
      if r.name == name && r.version > m then r.version else m
  }

  function Retire(rows: Rows, k: nat, now: int): Rows
    requires k < |rows|
  {
    rows[k := rows[k].(retiredAt := Some(now))]
  }

  /** The table with the live row of a name, if there is one, retired. */
  function Kept(rows: Rows, name: string, now: int): Rows {
    var live := LiveRows(rows, name);
    if |live| == 1 then Retire(rows, live[0], now) else rows
  }

  function NewRow(r: Request, version: int): PolicyRow {
    PolicyRow(r.name, version, r.isActive, None, r.settings, r.createdBy)
  }

  /** The committed rows and the outcome of one call. */
  function Create(rows: Rows, r: Request, now: int, commitFails: bool): (Rows, Outcome) {
    var live := LiveRows(rows, r.name);
    if !ValidRequest(r.settings) then (rows, Invalid)
    else if |live| > 1 then (rows, SeveralLive)
    else if |live| == 1 && !r.retirePrevious then (rows, AlreadyActive)
    else
      var kept := Kept(rows, r.name, now);
      var rows' := kept + [NewRow(r, MaxVersion(kept, r.name) + 1)];
      if commitFails || !MeetsChecks(r.settings) || !AtMostOneLive(rows') then (rows, Violated)
      else (rows', Created(|rows|, if |live| == 1 then Some(live[0]) else None))
  }

  // -------------------------------------------------------------------------
  // The service over a table with one open transaction
  // -------------------------------------------------------------------------

  class PolicyTable {
    var committed: Rows
    var working: Rows

    constructor ()
      ensures committed == working == []
    {
      committed, working := [], [];
    }

    method CreatePolicyVersion(r: Request, now: int, commitFails: bool) returns (outcome: Outcome)
      requires working == committed
      modifies this
      ensures working == committed
      ensures (committed, outcome) == Create(old(committed), r, now, commitFails)
    {
      hide MaxVersion, AtMostOneLive, LiveRows;
      if !ValidRequest(r.settings) {
        return Invalid;
      }
      var live := ResolvePreviousActive(r.name);
      if |live| > 1 {
        return SeveralLive;
      }
      var superseded := None;
      if |live| == 1 {
        if !r.retirePrevious {
          return AlreadyActive;
        }
        working := Retire(working, live[0], now);
        superseded := Some(live[0]);
      }
      var nextVersion := ResolveMaxVersion(r.name);
      working := working + [NewRow(r, nextVersion + 1)];
      if commitFails || !MeetsChecks(r.settings) || !AtMostOneLive(working) {
        working := committed;
        return Violated;
      }
      committed := working;
      outcome := Created(|working| - 1, superseded);
    }

    method ResolvePreviousActive(name: string) returns (live: seq<nat>)
      ensures live == LiveRows(working, name)
    {
      live := [];
      for k := 0 to |working|
        invariant live == LiveRows(working[..k], name)
      {
        assert working[..k + 1][..k] == working[..k];
        if IsLive(working[k], name) {
          live := live + [k];
        }
      }
      assert working[..|working|] == working;
    }

    method ResolveMaxVersion(name: string) returns (version: int)
      ensures version == MaxVersion(working, name)
    {
      version := 0;
      for k := 0 to |working|
        invariant version == MaxVersion(working[..k], name)
      {
        assert working[..k + 1][..k] == working[..k];
        if working[k].name == name && working[k].version > version {
          version := working[k].version;
        }
      }
      assert working[..|working|] == working;
    }
  }

  // -------------------------------------------------------------------------
  // Versions
  // -------------------------------------------------------------------------

  /** The versions of a name, in insertion order. */
  function Versions(rows: Rows, name: string): seq<int> {
    if |rows| == 0 then []
    else
      var r := rows[|rows| - 1];
      Versions(rows[..|rows| - 1], name) + (if r.name == name then [r.version] else [])
  }

  function OneTo(n: nat): (s: seq<int>)
    ensures |s| == n && forall i :: 0 <= i < n ==> s[i] == i + 1
  {
    seq(n, i requires 0 <= i < n => i + 1)
  }

  ghost predicate Numbered(rows: Rows) {
    forall name :: Versions(rows, name) == OneTo(|Versions(rows, name)|)
  }

  /** Rows are only ever appended, and an old row changes at most by being retired, once. */
  predicate Evolves(rows: Rows, rows': Rows) {
    && |rows| <= |rows'|
    && forall k :: 0 <= k < |rows| ==>
         rows'[k] == rows[k] || (rows[k].retiredAt == None && rows'[k] == rows[k].(retiredAt := rows'[k].retiredAt))
  }

  lemma {:induction false} MaxIsLast(rows: Rows, name: string)
    requires Versions(rows, name) == OneTo(|Versions(rows, name)|)
    ensures MaxVersion(rows, name) == |Versions(rows, name)|
  {
    if |rows| > 0 {
      var front, r := rows[..|rows| - 1], rows[|rows| - 1];
      var vs, vs' := Versions(front, name), Versions(rows, name);
      assert forall i :: 0 <= i < |vs| ==> vs[i] == vs'[i];
      assert vs == OneTo(|vs|);
      MaxIsLast(front, name);
      assert r.name == name ==> vs'[|vs|] == r.version;
    }
  }

  lemma {:induction false} VersionsNext(rows: Rows, r: PolicyRow, name: string)
    ensures Versions(rows + [r], name) == Versions(rows, name) + (if r.name == name then [r.version] else [])
  {
    assert (rows + [r])[..|rows|] == rows;
  }

  lemma {:induction false} RetireKeepsVersions(rows: Rows, k: nat, now: int, name: string)
    requires k < |rows|
    ensures Versions(Retire(rows, k, now), name) == Versions(rows, name)
  {
    var front := rows[..|rows| - 1];
    if k < |front| {
      RetireKeepsVersions(front, k, now, name);
      assert Retire(rows, k, now)[..|rows| - 1] == Retire(front, k, now);
    } else {
      assert Retire(rows, k, now)[..|rows| - 1] == front;
    }
  }

  /** A call keeps every name's versions at 1..n in insertion order. */
  lemma {:induction false} CreateKeepsNumbered(rows: Rows, r: Request, now: int, commitFails: bool)
    requires Numbered(rows)
    ensures Numbered(Create(rows, r, now, commitFails).0)
  {
    hide LiveRows, AtMostOneLive, MaxVersion, Versions, Numbered;
    var (rows', outcome) := Create(rows, r, now, commitFails);
    if outcome.Created? {
      var live, kept := LiveRows(rows, r.name), Kept(rows, r.name, now);
      forall name
        ensures Versions(kept, name) == Versions(rows, name)
      {
        if |live| == 1 {
          RetireKeepsVersions(rows, live[0], now, name);
        }
      }
      NumberedSame(rows, kept);
      NumberedNext(kept, r);
    }
  }

  lemma {:induction false} NumberedSame(rows: Rows, kept: Rows)
    requires Numbered(rows) && forall name :: Versions(kept, name) == Versions(rows, name)
    ensures Numbered(kept)
  {
    hide Versions, OneTo;
  }

  lemma {:induction false} NumberedNext(kept: Rows, r: Request)
    requires Numbered(kept)
    ensures Numbered(kept + [NewRow(r, MaxVersion(kept, r.name) + 1)])
  {
    hide Versions, OneTo;
    var row := NewRow(r, MaxVersion(kept, r.name) + 1);
    MaxIsLast(kept, r.name);
    forall name
      ensures Versions(kept + [row], name) == OneTo(|Versions(kept + [row], name)|)
    {
      VersionsNext(kept, row, name);
      assert Versions(kept, name) == OneTo(|Versions(kept, name)|);
    }
  }

  /** At most one row of a name is live after every call, so the lookup never sees two. */
  lemma {:induction false} CreateKeepsOneLive(rows: Rows, r: Request, now: int, commitFails: bool)
    requires AtMostOneLive(rows)
    ensures AtMostOneLive(Create(rows, r, now, commitFails).0)
    ensures Create(rows, r, now, commitFails).1 != SeveralLive
  {
    hide MaxVersion, LiveRows;
    OneLiveRow(rows, r.name);
  }

  lemma {:induction false} CreateEvolves(rows: Rows, r: Request, now: int, commitFails: bool)
    ensures Evolves(rows, Create(rows, r, now, commitFails).0)
  {
    hide MaxVersion, AtMostOneLive, LiveRows;
  }

  /** Retiring the live row of a name leaves none. */
  lemma {:induction false} KeptHasNone(rows: Rows, name: string, now: int)
    requires AtMostOneLive(rows)
    ensures var kept := Kept(rows, name, now);
      && |kept| == |rows|
      && (forall k :: 0 <= k < |rows| ==> !IsLive(kept[k], name) && kept[k].name == rows[k].name)
      && (forall k :: 0 <= k < |rows| ==> IsLive(kept[k], kept[k].name) ==> IsLive(rows[k], rows[k].name))
  {
    hide LiveRows;
    OneLiveRow(rows, name);
    var live := LiveRows(rows, name);
    forall k | 0 <= k < |rows|
      ensures !IsLive(Kept(rows, name, now)[k], name)
    {
      assert IsLive(rows[k], name) ==> k in live;
    }
  }

  lemma {:induction false} OneMoreLive(rows: Rows, kept: Rows, row: PolicyRow)
    requires AtMostOneLive(rows) && |kept| == |rows|
    requires forall k :: 0 <= k < |rows| ==> !IsLive(kept[k], row.name) && kept[k].name == rows[k].name
    requires forall k :: 0 <= k < |rows| ==> IsLive(kept[k], kept[k].name) ==> IsLive(rows[k], rows[k].name)
    ensures AtMostOneLive(kept + [row])
  {
    var all := kept + [row];
    forall j, k | 0 <= j < k < |all| && IsLive(all[j], all[j].name) && IsLive(all[k], all[k].name)
      ensures all[j].name != all[k].name
    {
      assert all[j] == kept[j] && IsLive(rows[j], rows[j].name);
      if k < |rows| {
        assert all[k] == kept[k] && IsLive(rows[k], rows[k].name);
      } else {
        assert all[k] == row;
      }
    }
  }

  lemma {:induction false} OneLiveRow(rows: Rows, name: string)
    requires AtMostOneLive(rows)
    ensures |LiveRows(rows, name)| <= 1
  {
    hide LiveRows;
    if |LiveRows(rows, name)| > 1 {
      LiveApart(rows, name, 0, 1);
    }
  }

  lemma {:induction false} LiveApart(rows: Rows, name: string, i: nat, j: nat)
    requires AtMostOneLive(rows) && i < |LiveRows(rows, name)| && j < |LiveRows(rows, name)|
    ensures i == j
  {
    hide LiveRows;
    var live := LiveRows(rows, name);
    assert IsLive(rows[live[i]], name) && IsLive(rows[live[j]], name);
    assert live[i] == live[j];
  }

  /** Exactly when a call creates a version; then the new row is the last one, and the live row it
      supersedes, if any, is the one that gets the retirement time. */
  lemma {:induction false} CreatesWhen(rows: Rows, r: Request, now: int, commitFails: bool)
    requires AtMostOneLive(rows)
    ensures var (rows', outcome) := Create(rows, r, now, commitFails);
      && (outcome.Created? <==>
            && ValidRequest(r.settings) && MeetsChecks(r.settings) && !commitFails
            && (r.retirePrevious || forall k :: 0 <= k < |rows| ==> !IsLive(rows[k], r.name)))
      && (!outcome.Created? ==> rows' == rows)
      && (outcome.Created? ==>
            && |rows'| == |rows| + 1
            && rows'[|rows|] == NewRow(r, rows'[|rows|].version)
            && forall k :: 0 <= k < |rows| ==>
                 rows'[k] == if IsLive(rows[k], r.name) then rows[k].(retiredAt := Some(now)) else rows[k])
  {
    hide MaxVersion, AtMostOneLive, LiveRows;
    var live, kept := LiveRows(rows, r.name), Kept(rows, r.name, now);
    OneLiveRow(rows, r.name);
    KeptHasNone(rows, r.name, now);
    OneMoreLive(rows, kept, NewRow(r, MaxVersion(kept, r.name) + 1));
    assert forall k :: 0 <= k < |rows| && IsLive(rows[k], r.name) ==> k in live;
    assert |live| > 0 ==> IsLive(rows[live[0]], r.name);
  }

  /** What a created version says: every column of the request, live from now on if it is active,
      with the next number of its name; and the call names the row it superseded, if there was one. */
  lemma {:induction false} CreatedColumns(rows: Rows, r: Request, now: int, commitFails: bool)
    requires AtMostOneLive(rows) && Create(rows, r, now, commitFails).1.Created?
    ensures var (rows', outcome) := Create(rows, r, now, commitFails);
      && |rows'| == |rows| + 1 && outcome.row == |rows|
      && rows'[|rows|] == PolicyRow(r.name, rows'[|rows|].version, r.isActive, None, r.settings, r.createdBy)
    ensures var (rows', outcome) := Create(rows, r, now, commitFails);
      var version := rows'[|rows|].version;
      && (forall k :: 0 <= k < |rows| && rows[k].name == r.name ==> rows[k].version < version)
      && (version == 1 || exists k :: 0 <= k < |rows| && rows[k].name == r.name && version == rows[k].version + 1)
    ensures var superseded := Create(rows, r, now, commitFails).1.superseded;
      forall k: nat :: superseded == Some(k) <==>
        k < |rows| && rows[k].name == r.name && rows[k].isActive && rows[k].retiredAt == None
  {
    hide AtMostOneLive, LiveRows, MaxVersion;
    OneLiveRow(rows, r.name);
    var live, kept := LiveRows(rows, r.name), Kept(rows, r.name, now);
    assert |live| == 1 ==> live[0] < |rows| && IsLive(rows[live[0]], r.name);
    assert forall k :: 0 <= k < |rows| && IsLive(rows[k], r.name) ==> k in live;
    assert forall k :: 0 <= k < |rows| ==> kept[k].name == rows[k].name && kept[k].version == rows[k].version;
    MaxIsGreatest(kept, r.name);
  }

  lemma {:induction false} MaxIsGreatest(rows: Rows, name: string)
    ensures forall k :: 0 <= k < |rows| && rows[k].name == name ==> rows[k].version <= MaxVersion(rows, name)
    ensures MaxVersion(rows, name) == 0
      || exists k :: 0 <= k < |rows| && rows[k].name == name && rows[k].version == MaxVersion(rows, name)
  {
    if |rows| > 0 {
      var front, n := rows[..|rows| - 1], |rows| - 1;
      MaxIsGreatest(front, name);
      if k :| 0 <= k < n && front[k].name == name && front[k].version == MaxVersion(front, name) {
        assert rows[k] == front[k];
      }
      forall k | 0 <= k < |rows| && rows[k].name == name
        ensures rows[k].version <= MaxVersion(rows, name)
      {
        assert k < n ==> front[k] == rows[k];
      }
    }
  }

  /** Why a version is not created, in the order in which the call looks: a request out of range, a
      live row that is not to be retired, or a check constraint or the commit itself. */
  lemma {:induction false} RefusedWhen(rows: Rows, r: Request, now: int, commitFails: bool)
    requires AtMostOneLive(rows)
    ensures var outcome, s := Create(rows, r, now, commitFails).1, r.settings;
      var inRange :=
        && s.gazeWarningLimit <= s.gazeTerminationLimit
        && s.gazeMinDurationMs <= s.gazeWindowSeconds * 1000
        && 0.0 <= s.mediumScoreTerminationThreshold
        && (s.livenessCheckEnabled ==> s.livenessCheckAction.Some?)
        && 0.0 <= s.livenessScoreThreshold <= 1.0 && 0.0 <= s.identitySimilarityThreshold <= 1.0
        && 0.0 <= s.audioSpeechRatioThreshold <= 1.0;
      var free := r.retirePrevious || forall k :: 0 <= k < |rows| ==>
        !(rows[k].name == r.name && rows[k].isActive && rows[k].retiredAt == None);
      var meetsChecks :=
        && 0 <= s.gazeMinDurationMs && 0 < s.gazeWindowSeconds && 0 <= s.gazeWarningLimit
        && 0 < s.gazeTerminationLimit && 0 < s.secondFaceConfirmationFrames
        && 0 < s.livenessConfirmationFrames && 0 < s.identityConfirmationFrames;
      && (outcome == Invalid <==> !inRange)
      && (outcome == AlreadyActive <==> inRange && !free)
      && (outcome == Violated <==> inRange && free && (commitFails || !meetsChecks))
  {
    hide MaxVersion, AtMostOneLive, LiveRows;
    var live, kept := LiveRows(rows, r.name), Kept(rows, r.name, now);
    OneLiveRow(rows, r.name);
    KeptHasNone(rows, r.name, now);
    OneMoreLive(rows, kept, NewRow(r, MaxVersion(kept, r.name) + 1));
    assert forall k :: 0 <= k < |rows| && IsLive(rows[k], r.name) ==> k in live;
    assert |live| > 0 ==> IsLive(rows[live[0]], r.name);
  }

  // -------------------------------------------------------------------------
  // Every sequence of calls
  // -------------------------------------------------------------------------

  datatype Call = Call(request: Request, now: int, commitFails: bool)

  function AfterCalls(calls: seq<Call>): Rows {
    if |calls| == 0 then []
    else
      var c := calls[|calls| - 1];
      Create(AfterCalls(calls[..|calls| - 1]), c.request, c.now, c.commitFails).0
  }

  /** From an empty table, after any sequence of calls, failed ones included: every name's
      versions are exactly 1..n in insertion order, and at most one row of a name is live. */
  lemma {:induction false} CallsKeepOrder(calls: seq<Call>)
    ensures Numbered(AfterCalls(calls)) && AtMostOneLive(AfterCalls(calls))
  {
    hide Create, Numbered, AtMostOneLive;
    if |calls| == 0 {
      NothingNumbered();
    } else {
      var front, c := calls[..|calls| - 1], calls[|calls| - 1];
      CallsKeepOrder(front);
      CreateKeepsNumbered(AfterCalls(front), c.request, c.now, c.commitFails);
      CreateKeepsOneLive(AfterCalls(front), c.request, c.now, c.commitFails);
    }
  }

  lemma {:induction false} NothingNumbered()
    ensures Numbered([]) && AtMostOneLive([])
  {
  }

  lemma {:induction false} EvolvesTransitive(a: Rows, b: Rows, c: Rows)
    requires Evolves(a, b) && Evolves(b, c)
    ensures Evolves(a, c)
  {
    forall k | 0 <= k < |a|
      ensures c[k] == a[k] || (a[k].retiredAt == None && c[k] == a[k].(retiredAt := c[k].retiredAt))
    {
      assert b[k] == a[k] || (a[k].retiredAt == None && b[k] == a[k].(retiredAt := b[k].retiredAt));
      assert c[k] == b[k] || (b[k].retiredAt == None && c[k] == b[k].(retiredAt := c[k].retiredAt));
    }
  }

  /** However many calls follow, no field of an old row ever changes except its retirement time,
      from null to set; and a retired row never changes at all. */
  lemma {:induction false} OldRowsAreKept(calls: seq<Call>, n: nat)
    requires n <= |calls|
    ensures Evolves(AfterCalls(calls[..n]), AfterCalls(calls))
    decreases |calls|
  {
    hide Create, Evolves;
    if n == |calls| {
      assert calls[..n] == calls;
      EvolvesRefl(AfterCalls(calls));
    } else {
      var front, c := calls[..|calls| - 1], calls[|calls| - 1];
      assert front[..n] == calls[..n];
      OldRowsAreKept(front, n);
      CreateEvolves(AfterCalls(front), c.request, c.now, c.commitFails);
      EvolvesTransitive(AfterCalls(calls[..n]), AfterCalls(front), AfterCalls(calls));
    }
  }

  lemma {:induction false} EvolvesRefl(rows: Rows)
    ensures Evolves(rows, rows)
  {
  }
}
