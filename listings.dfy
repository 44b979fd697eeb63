/** The read-only operations of the execution module: projecting the host
    agent's SOAP replies into plain lists and records. The reply is an input;
    with no client the service is never consulted, so the result cannot depend
    on it. */
module Listings {
  import opened Optional
  import opened Sequences
  import opened HostAgentClient

  /** An element of the `ListInstances` reply. */
  datatype Instance = Instance(mSid: string, mHostname: string, mSystemNumber: string)

  /** A reply the source expects to be a list: `NotAList` stands for `None` or any
      other value that fails the `isinstance(response, list)` test. */
  datatype ListReply<T> = NotAList | Items(items: seq<T>)

  /** The `mSid` field of every instance, in reply order. */
  function Sids(items: seq<Instance>): (r: seq<string>)
  {
    seq(|items|, i requires 0 <= i < |items| => items[i].mSid)
  }

  /** `r` holds every element of `s` exactly once, in order of first appearance. */
  ghost predicate FirstAppearanceOrder(r: seq<string>, s: seq<string>) {
    && NoDuplicates(r)
    && (forall x :: x in r <==> x in s)
    && forall i, j :: 0 <= i < j < |r| && r[i] in s && r[j] in s ==> FirstIndex(s, r[i]) < FirstIndex(s, r[j])
  }

  /** `r` is duplicate-free, drawn from `s`, and ordered by first appearance in `s`. */
  ghost predicate OrderedByFirstAppearance(r: seq<string>, s: seq<string>) {
    && NoDuplicates(r)
    && (forall i :: 0 <= i < |r| ==> r[i] in s)
    && forall i, j :: 0 <= i < j < |r| && r[i] in s && r[j] in s ==> FirstIndex(s, r[i]) < FirstIndex(s, r[j])
  }

  /** Two such orderings of the same non-empty set of elements start alike. */
  lemma SameHead(r1: seq<string>, r2: seq<string>, s: seq<string>)
    requires OrderedByFirstAppearance(r1, s) && OrderedByFirstAppearance(r2, s)
    requires forall x :: x in r1 <==> x in r2
    requires |r1| > 0
    ensures |r2| > 0 && r1[0] == r2[0]
  {
    assert r1[0] in r2;
    var p :| 0 <= p < |r2| && r2[p] == r1[0];
    assert r2[0] in r2;
    var q :| 0 <= q < |r1| && r1[q] == r2[0];
  }

  /** Dropping a common head from duplicate-free sequences keeps the rest alike. */
  lemma SameTailElements(r1: seq<string>, r2: seq<string>)
    requires NoDuplicates(r1) && NoDuplicates(r2)
    requires forall x :: x in r1 <==> x in r2
    requires |r1| > 0 && |r2| > 0 && r1[0] == r2[0]
    ensures forall x :: x in r1[1..] <==> x in r2[1..]
  {
    forall x | x in r1[1..] ensures x in r2[1..] {
      var a :| 1 <= a < |r1| && r1[a] == x;
      assert x in r2;
      var b :| 0 <= b < |r2| && r2[b] == x;
      assert r2[1..][b - 1] == x;
    }
    forall x | x in r2[1..] ensures x in r1[1..] {
      var b :| 1 <= b < |r2| && r2[b] == x;
      assert x in r1;
      var a :| 0 <= a < |r1| && r1[a] == x;
      assert r1[1..][a - 1] == x;
    }
  }

  /** Two such orderings of the same elements coincide. */
  lemma {:induction false} OrderedSameElements(r1: seq<string>, r2: seq<string>, s: seq<string>)
    requires OrderedByFirstAppearance(r1, s) && OrderedByFirstAppearance(r2, s)
    requires forall x :: x in r1 <==> x in r2
    ensures r1 == r2
    decreases |r1|
  {
    if |r1| == 0 {
      if |r2| > 0 {
        SameHead(r2, r1, s);
      }
    } else {
      SameHead(r1, r2, s);
      SameTailElements(r1, r2);
      OrderedSameElements(r1[1..], r2[1..], s);
      assert r1 == [r1[0]] + r1[1..] && r2 == [r2[0]] + r2[1..];
    }
  }

  /** The first-appearance order determines the listing: at most one sequence
      satisfies it. */
  lemma FirstAppearanceUnique(r1: seq<string>, r2: seq<string>, s: seq<string>)
    requires FirstAppearanceOrder(r1, s) && FirstAppearanceOrder(r2, s)
    ensures r1 == r2
  {
    OrderedSameElements(r1, r2, s);
  }

  /** `list_systems`: `False` without a client, `[]` for a reply that is not a
      list, otherwise each SID once, in order of first appearance. */
  method ListSystems(conn: Conn, reply: ListReply<Instance>) returns (r: Option<seq<string>>)
    ensures !conn.Truthy() ==> r == None
    ensures conn.Truthy() && reply.NotAList? ==> r == Some([])
    ensures conn.Truthy() && reply.Items? ==> r.Some? && FirstAppearanceOrder(r.value, Sids(reply.items))
  {
    if !conn.Truthy() {
      return None;
    }
    if reply.NotAList? {
      return Some([]);
    }
    var items := reply.items;
    var sids := Sids(items);
    var result: seq<string> := [];
    for k := 0 to |items|
      invariant NoDuplicates(result)
      invariant forall x :: x in result <==> x in sids[..k]
      invariant forall i :: 0 <= i < |result| ==> result[i] in sids && FirstIndex(sids, result[i]) < k
      invariant forall i, j :: 0 <= i < j < |result| ==> FirstIndex(sids, result[i]) < FirstIndex(sids, result[j])
    {
      var sid := items[k].mSid;
      assert sids[..k + 1] == sids[..k] + [sid];
      if sid !in result {
        FirstIndexAt(sids, k);
        result := result + [sid];
      }
    }
    assert sids[..|items|] == sids;
    return Some(result);
  }

  /** One `{mHostname: mSystemNumber}` entry of the `list_instances` result. */
  datatype HostEntry = HostEntry(hostname: string, systemNumber: string)

  function EntryOf(inst: Instance): HostEntry {
    HostEntry(inst.mHostname, inst.mSystemNumber)
  }

  /** The entries `list_instances` emits for `items`. */
  function EntriesFor(sid: string, items: seq<Instance>): seq<HostEntry> {
    if |items| == 0 then []
    else
      var last := items[|items| - 1];
      EntriesFor(sid, items[..|items| - 1]) + (if last.mSid == sid then [EntryOf(last)] else [])
  }

  /** The entries follow the reply's order: the entries for a concatenation are
      those of each part, one after the other. */
  lemma {:induction false} EntriesForAppend(sid: string, a: seq<Instance>, b: seq<Instance>)
    ensures EntriesFor(sid, a + b) == EntriesFor(sid, a) + EntriesFor(sid, b)
  {
    if |b| > 0 {
      var ab := a + b;
      assert ab[..|ab| - 1] == a + b[..|b| - 1];
      EntriesForAppend(sid, a, b[..|b| - 1]);
    } else {
      assert a + b == a;
    }
  }

  /** Every entry comes from an instance of the requested SID. */
  lemma {:induction false} EntriesForSound(sid: string, items: seq<Instance>, e: HostEntry)
    requires e in EntriesFor(sid, items)
    ensures exists i :: 0 <= i < |items| && items[i].mSid == sid && EntryOf(items[i]) == e
  {
    var n := |items|;
    var init := items[..n - 1];
    if e in EntriesFor(sid, init) {
      EntriesForSound(sid, init, e);
      var i :| 0 <= i < |init| && init[i].mSid == sid && EntryOf(init[i]) == e;
      assert items[i] == init[i];
    } else {
      assert items[n - 1].mSid == sid && EntryOf(items[n - 1]) == e;
    }
  }

  /** Every instance of the requested SID contributes its entry. */
  lemma {:induction false} EntriesForComplete(sid: string, items: seq<Instance>, i: nat)
    requires i < |items| && items[i].mSid == sid
    ensures EntryOf(items[i]) in EntriesFor(sid, items)
  {
    var n := |items|;
    if i < n - 1 {
      EntriesForComplete(sid, items[..n - 1], i);
    }
  }

  /** Instances of other SIDs contribute nothing. */
  lemma {:induction false} EntriesForOtherSid(sid: string, items: seq<Instance>)
    requires forall i :: 0 <= i < |items| ==> items[i].mSid != sid
    ensures EntriesFor(sid, items) == []
  {
    if |items| > 0 {
      EntriesForOtherSid(sid, items[..|items| - 1]);
    }
  }

  /** `list_instances`: `False` without a client, `[]` for a reply that is not
      a list, otherwise one entry per instance of `sid`, in reply order. */
  method ListInstances(sid: string, conn: Conn, reply: ListReply<Instance>) returns (r: Option<seq<HostEntry>>)
    ensures !conn.Truthy() ==> r == None
    ensures conn.Truthy() ==> r == Some(if reply.Items? then EntriesFor(sid, reply.items) else [])
  {
    if !conn.Truthy() {
      return None;
    }
    var result: seq<HostEntry> := [];
    if reply.Items? {
      var items := reply.items;
      for k := 0 to |items|
        invariant result == EntriesFor(sid, items[..k])
      {
        assert items[..k + 1][..k] == items[..k];
        if items[k].mSid == sid {
          result := result + [HostEntry(items[k].mHostname, items[k].mSystemNumber)];
        }
      }
      assert items[..|items|] == items;
    }
    return Some(result);
  }

  /** One `{mKey, mValue}` item of a database property list. */
  datatype KeyValue = KeyValue(mKey: string, mValue: string)

  /** An element of the `ListDatabaseSystems` reply: the `item` lists of its
      `mDatabase` and `mProperties`, and of each instance's `mInstance`. */
  datatype DatabaseSystem = DatabaseSystem(mDatabase: seq<KeyValue>, mProperties: seq<KeyValue>, mInstances: seq<seq<KeyValue>>)

  /** An `instances` entry: a dictionary holding `name`, `host` or both. */
  datatype DbInstance = DbInstance(name: Option<string>, host: Option<string>)

  /** A database record: `name` is always present in an emitted record, the
      other keys only when the reply carried them. */
  datatype DbRecord = DbRecord(name: string, dbType: Option<string>, version: Option<string>,
                               connectString: Option<string>, instances: seq<DbInstance>)

  const DB_NAME := "Database/Name"
  const DB_TYPE := "Database/Type"
  const DB_RELEASE := "Database/Release"
  const CONNECT_ADDRESS := "ConnectAddress"
  const INSTANCE_NAME := "Database/InstanceName"
  const INSTANCE_HOST := "Database/Host"

  /** The value a dictionary holds for `key` after assigning every item with
      that key in order. */
  function LastValue(items: seq<KeyValue>, key: string): Option<string> {
    if |items| == 0 then None
    else if items[|items| - 1].mKey == key then Some(items[|items| - 1].mValue)
    else LastValue(items[..|items| - 1], key)
  }

  /** When a key repeats, its last occurrence wins. */
  lemma {:induction false} LastValueAt(items: seq<KeyValue>, key: string, i: nat)
    requires i < |items| && items[i].mKey == key
    requires forall j :: i < j < |items| ==> items[j].mKey != key
    ensures LastValue(items, key) == Some(items[i].mValue)
  {
    if i < |items| - 1 {
      LastValueAt(items[..|items| - 1], key, i);
    }
  }

  /** A key that never occurs stays unset. */
  lemma {:induction false} LastValueAbsent(items: seq<KeyValue>, key: string)
    requires forall j :: 0 <= j < |items| ==> items[j].mKey != key
    ensures LastValue(items, key) == None
  {
    if |items| > 0 {
      LastValueAbsent(items[..|items| - 1], key);
    }
  }

  /** A key is set exactly when some item carries it. */
  lemma {:induction false} LastValuePresent(items: seq<KeyValue>, key: string)
    ensures LastValue(items, key).Some? <==> exists j :: 0 <= j < |items| && items[j].mKey == key
  {
    if |items| > 0 {
      LastValuePresent(items[..|items| - 1], key);
      if items[|items| - 1].mKey != key {
        assert forall j :: 0 <= j < |items| - 1 ==> items[..|items| - 1][j] == items[j];
      }
    }
  }

  /** The `instances` entry for one instance's items, if any key was found. */
  function InstanceOf(props: seq<KeyValue>): Option<DbInstance> {
    var name := LastValue(props, INSTANCE_NAME);
    var host := LastValue(props, INSTANCE_HOST);
    if name.None? && host.None? then None else Some(DbInstance(name, host))
  }

  /** The `instances` list of a record. */
  function InstancesOf(insts: seq<seq<KeyValue>>): seq<DbInstance> {
    if |insts| == 0 then []
    else
      var ins := InstanceOf(insts[|insts| - 1]);
      InstancesOf(insts[..|insts| - 1]) + (if ins.Some? then [ins.value] else [])
  }

  /** The record for one database, if it has a name. */
  function RecordOf(db: DatabaseSystem): Option<DbRecord> {
    match LastValue(db.mDatabase, DB_NAME)
    case None => None
    case Some(name) =>
      Some(DbRecord(name, LastValue(db.mDatabase, DB_TYPE), LastValue(db.mDatabase, DB_RELEASE),
                    LastValue(db.mProperties, CONNECT_ADDRESS), InstancesOf(db.mInstances)))
  }

  /** The records `list_database_systems` emits, in reply order. */
  function RecordsOf(dbs: seq<DatabaseSystem>): seq<DbRecord> {
    if |dbs| == 0 then []
    else
      var rec := RecordOf(dbs[|dbs| - 1]);
      RecordsOf(dbs[..|dbs| - 1]) + (if rec.Some? then [rec.value] else [])
  }

  /** A database is listed exactly when one of its `mDatabase` items has key
      `Database/Name`. */
  lemma DatabaseListedIffNamed(db: DatabaseSystem)
    ensures RecordOf(db).Some? <==> exists j :: 0 <= j < |db.mDatabase| && db.mDatabase[j].mKey == DB_NAME
  {
    LastValuePresent(db.mDatabase, DB_NAME);
  }

  /** Every instance entry carries a name or a host. */
  lemma {:induction false} InstancesNonEmpty(insts: seq<seq<KeyValue>>)
    ensures forall k :: 0 <= k < |InstancesOf(insts)| ==>
      InstancesOf(insts)[k].name.Some? || InstancesOf(insts)[k].host.Some?
  {
    if |insts| > 0 {
      InstancesNonEmpty(insts[..|insts| - 1]);
    }
  }

  /** An instance contributes an entry exactly when it has one of the two keys. */
  lemma InstanceListedIffKeyed(props: seq<KeyValue>)
    ensures InstanceOf(props).Some? <==>
      exists j :: 0 <= j < |props| && (props[j].mKey == INSTANCE_NAME || props[j].mKey == INSTANCE_HOST)
  {
    LastValuePresent(props, INSTANCE_NAME);
    LastValuePresent(props, INSTANCE_HOST);
  }

  /** The records follow the reply's order: those of a concatenation are those
      of each part, one after the other. */
  lemma {:induction false} RecordsOfAppend(a: seq<DatabaseSystem>, b: seq<DatabaseSystem>)
    ensures RecordsOf(a + b) == RecordsOf(a) + RecordsOf(b)
  {
    if |b| > 0 {
      var ab := a + b;
      assert ab[..|ab| - 1] == a + b[..|b| - 1];
      RecordsOfAppend(a, b[..|b| - 1]);
    } else {
      assert a + b == a;
    }
  }

  /** The instance loop: every `mInstance` item list yields an entry unless
      neither key occurs in it. */
  method InstanceEntry(props: seq<KeyValue>) returns (ins: Option<DbInstance>)
    ensures ins == InstanceOf(props)
  {
    var name: Option<string> := None;
    var host: Option<string> := None;
    for k := 0 to |props|
      invariant name == LastValue(props[..k], INSTANCE_NAME)
      invariant host == LastValue(props[..k], INSTANCE_HOST)
    {
      assert props[..k + 1][..k] == props[..k];
      if props[k].mKey == INSTANCE_NAME {
        name := Some(props[k].mValue);
      } else if props[k].mKey == INSTANCE_HOST {
        host := Some(props[k].mValue);
      }
    }
    assert props[..|props|] == props;
    if name.None? && host.None? {
      return None;
    }
    return Some(DbInstance(name, host));
  }

  /** The body of the loop over databases: fill `db_data` from the three item
      lists; the record is kept only if it got a name. */
  method DatabaseRecord(db: DatabaseSystem) returns (rec: Option<DbRecord>)
    ensures rec == RecordOf(db)
  {
    var items := db.mDatabase;
    var name, dbType, version := None, None, None;
    for k := 0 to |items|
      invariant name == LastValue(items[..k], DB_NAME)
      invariant dbType == LastValue(items[..k], DB_TYPE)
      invariant version == LastValue(items[..k], DB_RELEASE)
    {
      assert items[..k + 1][..k] == items[..k];
      if items[k].mKey == DB_NAME {
        name := Some(items[k].mValue);
      } else if items[k].mKey == DB_TYPE {
        dbType := Some(items[k].mValue);
      } else if items[k].mKey == DB_RELEASE {
        version := Some(items[k].mValue);
      }
    }
    assert items[..|items|] == items;
    var props := db.mProperties;
    var connect := None;
    for k := 0 to |props|
      invariant connect == LastValue(props[..k], CONNECT_ADDRESS)
    {
      assert props[..k + 1][..k] == props[..k];
      if props[k].mKey == CONNECT_ADDRESS {
        connect := Some(props[k].mValue);
      }
    }
    assert props[..|props|] == props;
    var insts := db.mInstances;
    var instances: seq<DbInstance> := [];
    for k := 0 to |insts|
      invariant instances == InstancesOf(insts[..k])
    {
      assert insts[..k + 1][..k] == insts[..k];
      var ins := InstanceEntry(insts[k]);
      if ins.Some? {
        instances := instances + [ins.value];
      }
    }
    assert insts[..|insts|] == insts;
    if name.None? {
      return None;
    }
    return Some(DbRecord(name.value, dbType, version, connect, instances));
  }

  /** `list_database_systems`: `False` without a client, `[]` for a reply that
      is not a list, otherwise the record of every named database in reply
      order. */
  method ListDatabaseSystems(conn: Conn, reply: ListReply<DatabaseSystem>) returns (r: Option<seq<DbRecord>>)
    ensures !conn.Truthy() ==> r == None
    ensures conn.Truthy() ==> r == Some(if reply.Items? then RecordsOf(reply.items) else [])
  {
    if !conn.Truthy() {
      return None;
    }
    var result: seq<DbRecord> := [];
    if reply.Items? {
      var dbs := reply.items;
      for k := 0 to |dbs|
        invariant result == RecordsOf(dbs[..k])
      {
        assert dbs[..k + 1][..k] == dbs[..k];
        var rec := DatabaseRecord(dbs[k]);
        if rec.Some? {
          result := result + [rec.value];
        }
      }
      assert dbs[..|dbs|] == dbs;
    }
    return Some(result);
  }

  /** The `GetDatabaseStatus` reply: a dictionary that may lack `status`. */
  datatype StatusReply = StatusReply(status: Option<string>)

  /** `get_database_status`: `False` without a client, for a missing reply or a
      reply without `status`; otherwise that status, unchanged. */
  function GetDatabaseStatus(conn: Conn, reply: Option<StatusReply>): (r: Option<string>)
    ensures r.Some? <==> conn.Truthy() && reply.Some? && reply.value.status.Some?
    ensures r.Some? ==> r.value == reply.value.status.value
  {
    if !conn.Truthy() then None
    else if reply.None? || reply.value.status.None? then None
    else reply.value.status
  }
}
