/** The state-changing operations of the execution module. Each sends one
    request and reads a status marker out of the reply; the reply is an input,
    and with no client it is never consulted. */
module Operations {
  import opened Optional
  import opened HostAgentClient

  /** One `item` of `mOperationResults`. */
  datatype Message = Message(mMessageKey: string, mMessageValue: string)

  /** A `StartDatabase`/`StopDatabase` reply; `None` stands for a falsy
      `mOperationResults` (the agent timed out). */
  datatype OperationReply = OperationReply(mOperationResults: Option<seq<Message>>)

  const LOG_TEXT := "LogMsg/Text"
  const START_MARKER := "StartDatabase successfully executed"
  const STOP_MARKER := "StopDatabase successfully executed"

  /** Some message is the log text `marker`. */
  ghost predicate Reports(items: seq<Message>, marker: string) {
    exists i :: 0 <= i < |items| && items[i].mMessageKey == LOG_TEXT && items[i].mMessageValue == marker
  }

  /** The scan of `mOperationResults`, returning as soon as the marker is seen. */
  method FindMarker(items: seq<Message>, marker: string) returns (found: bool)
    ensures found <==> Reports(items, marker)
  {
    for k := 0 to |items|
      invariant forall i :: 0 <= i < k ==> !(items[i].mMessageKey == LOG_TEXT && items[i].mMessageValue == marker)
    {
      if items[k].mMessageKey == LOG_TEXT && items[k].mMessageValue == marker {
        return true;
      }
    }
    return false;
  }

  /** `start_database`: true exactly when connected and some operation result
      is the log text `StartDatabase successfully executed`. */
  method StartDatabase(conn: Conn, reply: OperationReply) returns (ok: bool)
    ensures ok <==> conn.Truthy() && reply.mOperationResults.Some? && Reports(reply.mOperationResults.value, START_MARKER)
  {
    if !conn.Truthy() || reply.mOperationResults.None? {
      return false;
    }
    ok := FindMarker(reply.mOperationResults.value, START_MARKER);
  }

  /** `stop_database`: the same rule with `StopDatabase successfully executed`. */
  method StopDatabase(conn: Conn, reply: OperationReply) returns (ok: bool)
    ensures ok <==> conn.Truthy() && reply.mOperationResults.Some? && Reports(reply.mOperationResults.value, STOP_MARKER)
  {
    if !conn.Truthy() || reply.mOperationResults.None? {
      return false;
    }
    ok := FindMarker(reply.mOperationResults.value, STOP_MARKER);
  }

  /** An `mProperties.item` entry; `mValue` may be missing. */
  datatype Property = Property(mName: string, mValue: Option<string>)

  /** A member of the outside-discovery reply; `None` when it has no
      `mProperties` or no `item` under it. */
  datatype Member = Member(mProperties: Option<seq<Property>>)

  /** Position of the first property called `name`. */
  function FirstNamed(props: seq<Property>, name: string): (r: Option<nat>)
    ensures r.Some? ==> r.value < |props| && props[r.value].mName == name
    ensures r.Some? ==> forall j :: 0 <= j < r.value ==> props[j].mName != name
    ensures r.None? ==> forall j :: 0 <= j < |props| ==> props[j].mName != name
  {
    if |props| == 0 then None
    else if props[0].mName == name then Some(0)
    else
      match FirstNamed(props[1..], name)
      case None => None
      case Some(j) => Some(j + 1)
  }

  /** The property of a member the scan reads: its first one called `name`. */
  function MemberStatus(m: Member, name: string): Option<Property> {
    if m.mProperties.None? then None
    else
      match FirstNamed(m.mProperties.value, name)
      case None => None
      case Some(j) => Some(m.mProperties.value[j])
  }

  /** The property that decides the scan: that of the last member which has one. */
  function DecidingStatus(members: seq<Member>, name: string): Option<Property> {
    if |members| == 0 then None
    else
      var s := MemberStatus(members[|members| - 1], name);
      if s.Some? then s else DecidingStatus(members[..|members| - 1], name)
  }

  /** A missing `mValue` reads as `"ERROR"`; no deciding property means failure. */
  function Verdict(p: Option<Property>, expected: string): bool {
    p.Some? && p.value.mValue.GetOr("ERROR") == expected
  }

  /** The member at `m` has a `name` property and no later member has one. */
  ghost predicate LastWithStatus(members: seq<Member>, name: string, m: int) {
    && 0 <= m < |members|
    && MemberStatus(members[m], name).Some?
    && forall l :: m < l < |members| ==> MemberStatus(members[l], name).None?
  }

  /** The last member that has a `name` property decides; earlier ones are
      overwritten. */
  lemma {:induction false} DecidingStatusAt(members: seq<Member>, name: string, m: nat)
    requires LastWithStatus(members, name, m)
    ensures DecidingStatus(members, name) == MemberStatus(members[m], name)
  {
    var n := |members| - 1;
    if m < n {
      assert LastWithStatus(members[..n], name, m);
      DecidingStatusAt(members[..n], name, m);
    }
  }

  /** With no member having a `name` property nothing decides. */
  lemma {:induction false} DecidingStatusAbsent(members: seq<Member>, name: string)
    requires forall l :: 0 <= l < |members| ==> MemberStatus(members[l], name).None?
    ensures DecidingStatus(members, name) == None
  {
    if |members| > 0 {
      DecidingStatusAbsent(members[..|members| - 1], name);
    }
  }

  /** The scan succeeds exactly when the last member with a `name` property
      has, as its first such property, one whose value is `expected`. */
  lemma VerdictOfLastMember(members: seq<Member>, name: string, expected: string)
    requires expected != "ERROR"
    ensures Verdict(DecidingStatus(members, name), expected) <==>
      exists m :: LastWithStatus(members, name, m) && MemberStatus(members[m], name).value.mValue == Some(expected)
  {
    if m :| LastWithStatus(members, name, m) {
      DecidingStatusAt(members, name, m);
      forall m' | LastWithStatus(members, name, m') ensures m' == m {
      }
    } else {
      forall l | 0 <= l < |members| ensures MemberStatus(members[l], name).None? {
        if MemberStatus(members[l], name).Some? {
          var last := LastWithStatusExists(members, name, l);
        }
      }
      DecidingStatusAbsent(members, name);
    }
  }

  /** If some member has a `name` property, a last such member exists. */
  lemma {:induction false} LastWithStatusExists(members: seq<Member>, name: string, l: nat) returns (m: nat)
    requires l < |members| && MemberStatus(members[l], name).Some?
    ensures LastWithStatus(members, name, m)
    decreases |members| - l
  {
    if forall k :: l < k < |members| ==> MemberStatus(members[k], name).None? {
      m := l;
    } else {
      var k :| l < k < |members| && MemberStatus(members[k], name).Some?;
      m := LastWithStatusExists(members, name, k);
    }
  }

  /** The nested scan with `break` shared by the two outside-discovery
      operations: every member's first `name` property overwrites `success`. */
  method ScanStatus(members: seq<Member>, name: string, expected: string) returns (success: bool)
    ensures success == Verdict(DecidingStatus(members, name), expected)
  {
    success := false;
    for k := 0 to |members|
      invariant success == Verdict(DecidingStatus(members[..k], name), expected)
    {
      assert members[..k + 1][..k] == members[..k];
      if members[k].mProperties.Some? {
        var props := members[k].mProperties.value;
        var j := 0;
        while j < |props|
          invariant 0 <= j <= |props|
          invariant forall i :: 0 <= i < j ==> props[i].mName != name
        {
          if props[j].mName == name {
            success := props[j].mValue.GetOr("ERROR") == expected;
            break;
          }
          j := j + 1;
        }
      }
    }
    assert members[..|members|] == members;
  }

  const REGISTRATION := "SLDRegistration"
  const REGISTRATION_STATUS := "SLDREGStatus"

  /** `configure_outside_discovery`: false without a client or with a falsy
      reply; otherwise whether the deciding `SLDRegistration` is `Enabled`.
      `reply` holds the values of the reply's `mMembers`. */
  method ConfigureOutsideDiscovery(conn: Conn, reply: Option<seq<Member>>) returns (ok: bool)
    ensures !conn.Truthy() || reply.None? ==> !ok
    ensures conn.Truthy() && reply.Some? ==> ok == Verdict(DecidingStatus(reply.value, REGISTRATION), "Enabled")
  {
    if !conn.Truthy() || reply.None? {
      return false;
    }
    ok := ScanStatus(reply.value, REGISTRATION, "Enabled");
  }

  /** `execute_outside_discovery`: false without a client or with a falsy
      reply; otherwise whether the deciding `SLDREGStatus` is `OK`. `reply`
      holds the elements the source iterates over. */
  method ExecuteOutsideDiscovery(conn: Conn, reply: Option<seq<Member>>) returns (ok: bool)
    ensures !conn.Truthy() || reply.None? ==> !ok
    ensures conn.Truthy() && reply.Some? ==> ok == Verdict(DecidingStatus(reply.value, REGISTRATION_STATUS), "OK")
  {
    if !conn.Truthy() || reply.None? {
      return false;
    }
    ok := ScanStatus(reply.value, REGISTRATION_STATUS, "OK");
  }
}
