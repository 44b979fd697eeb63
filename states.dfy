/** The two smaller states: `system_installed` and `sda_installed`. */
module States {
  import opened Optional
  import opened HostAgentClient
  import opened Listings
  import opened StateReports

  // ---------------------------------------------------------------- system_installed

  /** The host agent lists `name` among its SIDs. */
  predicate Listed(name: string, reply: ListReply<Instance>) {
    reply.Items? && name in Sids(reply.items)
  }

  function PresenceComment(name: string, present: bool): string {
    "SAP system " + name + (if present then " is installed" else " is not installed")
  }

  /** `system_installed` as written: it tests `name in list_systems(...)`, and
      the listing is `False` when no client can be built, so the test raises. */
  method SystemInstalledAsWritten(name: string, conn: Conn, reply: ListReply<Instance>) returns (out: StateOutcome)
    ensures !conn.Truthy() ==> out == Raised("TypeError")
    ensures conn.Truthy() ==>
              out == Returned(Report(name, NoChanges, Some(Listed(name, reply)), PresenceComment(name, Listed(name, reply))))
  {
    var systems := ListSystems(conn, reply);
    if systems.None? {
      return Raised("TypeError");
    }
    if name in systems.value {
      out := Returned(Report(name, NoChanges, Some(true), "SAP system " + name + " is installed"));
    } else {
      out := Returned(Report(name, NoChanges, Some(false), "SAP system " + name + " is not installed"));
    }
  }

  /** `system_installed` with an unreachable host agent reported as a failed
      check: success exactly when the system is listed, never any changes. */
  method SystemInstalled(name: string, conn: Conn, reply: ListReply<Instance>) returns (report: Report)
    ensures report.name == name && report.changes == NoChanges
    ensures report.result == Some(true) <==> conn.Truthy() && Listed(name, reply)
    ensures report.result == Some(false) <==> !(conn.Truthy() && Listed(name, reply))
    ensures report.comment == PresenceComment(name, report.result == Some(true))
  {
    var systems := ListSystems(conn, reply);
    if systems.Some? && name in systems.value {
      report := Report(name, NoChanges, Some(true), "SAP system " + name + " is installed");
    } else {
      report := Report(name, NoChanges, Some(false), "SAP system " + name + " is not installed");
    }
  }

  // ---------------------------------------------------------------- sda_installed

  /** The state's arguments: the SDA archive (`name`), the SAPJVM archive and
      whether to install even when the agent answers. Credentials and the
      certificate check are passed through unread. */
  datatype SdaRequest = SdaRequest(name: string, jvmArch: string, overwrite: bool)

  /** The ping: the request raises (a connection or TLS error, which nothing
      catches), the answer is not `ok`, or it is `ok` with a body whose
      `software` field does or does not parse as a version (a failure to
      decode or parse is caught). */
  datatype PingReply = PingRaised(error: string) | PingFailed | PingAnswered(versionParses: bool)

  /** The upload: opening one of the two archives raises, the multipart request
      raises, or the response comes back `ok` or not. */
  datatype UploadReply = OpenRaised(error: string) | PostRaised(error: string) | Posted(ok: bool)

  /** What the host does: its FQDN, the ping, the upload, and whether this is
      a dry run. */
  datatype SdaHost = SdaHost(fqdn: string, ping: PingReply, upload: UploadReply, test: bool)

  datatype SdaAction = Ping(url: string) | Upload(url: string, sdaArchive: string, jvmArchive: string)

  function PingUrl(fqdn: string): string {
    "https://" + fqdn + ":1129/lmsl/sda/default/?service=ping"
  }

  function DeployUrl(fqdn: string): string {
    "https://" + fqdn + ":1129/SMDAgent/deploy"
  }

  /** The agent counts as installed: it was asked (no `overwrite`) and
      reported a parseable version. */
  predicate SdaPresent(q: SdaRequest, h: SdaHost) {
    !q.overwrite && h.ping.PingAnswered? && h.ping.versionParses
  }

  /** The ping is sent and raises. */
  predicate PingRaises(q: SdaRequest, h: SdaHost) {
    !q.overwrite && h.ping.PingRaised?
  }

  /** The run reaches the upload: the ping did not raise, the agent is not
      installed, and this is not a dry run. */
  predicate Deploys(q: SdaRequest, h: SdaHost) {
    !PingRaises(q, h) && !SdaPresent(q, h) && !h.test
  }

  /** The exception that ends the run, if any. */
  function SdaError(q: SdaRequest, h: SdaHost): Option<string> {
    if PingRaises(q, h) then Some(h.ping.error)
    else if Deploys(q, h) && !h.upload.Posted? then Some(h.upload.error)
    else None
  }

  function Previously(overwrite: bool): string {
    if overwrite then "SDA was perhaps installed" else "SDA was not installed"
  }

  const SDA_WOULD_INSTALL := "SDA would be installed"
  const SDA_INSTALLED := "SDA is installed"
  const SDA_FAILED := "Could not install SDA"
  const SDA_DONE := "Installed SDA"
  const SDA_NO_CHANGES := "No changes required"

  /** Everything before the final result: the changes, the comment, whether the
      upload failed, the exception that ended the run, and the requests sent
      to the agent (a request that raised was still sent). */
  method SdaSteps(q: SdaRequest, h: SdaHost) returns (changes: Changes, comment: string, failed: bool, raised: Option<string>, trace: seq<SdaAction>)
    ensures raised == SdaError(q, h)
    ensures trace == (if q.overwrite then [] else [Ping(PingUrl(h.fqdn))])
                     + (if Deploys(q, h) && !h.upload.OpenRaised? then [Upload(DeployUrl(h.fqdn), q.name, q.jvmArch)] else [])
    ensures failed <==> Deploys(q, h) && h.upload == Posted(false)
    ensures raised.None? && SdaPresent(q, h) ==> changes == NoChanges && comment == SDA_NO_CHANGES
    ensures raised.None? && !SdaPresent(q, h) && h.test ==>
              changes == Summary(Previously(q.overwrite), SDA_WOULD_INSTALL) && comment == ""
    ensures raised.None? && Deploys(q, h) && h.upload == Posted(true) ==>
              changes == Summary(Previously(q.overwrite), SDA_INSTALLED) && comment == SDA_DONE
    ensures failed ==> changes == NoChanges && comment == SDA_FAILED
  {
    changes, comment, failed, raised, trace := NoChanges, "", false, None, [];
    var sdaInst := false;
    if !q.overwrite {
      trace := trace + [Ping(PingUrl(h.fqdn))];
      match h.ping {
        case PingRaised(e) =>
          raised := Some(e);
          return;
        case PingFailed =>
        case PingAnswered(parses) =>
          if parses {
            sdaInst := true;
          }
      }
    }
    if !sdaInst {
      if h.test {
        changes := Summary(Previously(q.overwrite), SDA_WOULD_INSTALL);
      } else {
        match h.upload {
          case OpenRaised(e) =>
            raised := Some(e);
            return;
          case PostRaised(e) =>
            trace := trace + [Upload(DeployUrl(h.fqdn), q.name, q.jvmArch)];
            raised := Some(e);
            return;
          case Posted(ok) =>
            trace := trace + [Upload(DeployUrl(h.fqdn), q.name, q.jvmArch)];
            if !ok {
              comment := SDA_FAILED;
              changes := NoChanges;
              failed := true;
            } else {
              comment := SDA_DONE;
              changes := Summary(Previously(q.overwrite), SDA_INSTALLED);
            }
        }
      }
    } else {
      comment := SDA_NO_CHANGES;
      changes := NoChanges;
    }
  }

  /** `sda_installed` as written: an exception from the ping, the archives or
      the upload ends the run; otherwise the last assignment makes the result
      `True` whenever this is not a dry run, so a failed upload is reported as
      success. */
  method SdaInstalledAsWritten(q: SdaRequest, h: SdaHost) returns (out: StateOutcome, trace: seq<SdaAction>)
    ensures SdaError(q, h).Some? ==> out == Raised(SdaError(q, h).value)
    ensures SdaError(q, h).None? ==>
              && out.Returned? && out.report.name == q.name
              && out.report.result == if !h.test || out.report.changes == NoChanges then Some(true) else None
    ensures Deploys(q, h) && h.upload == Posted(false) ==>
              out == Returned(Report(q.name, NoChanges, Some(true), SDA_FAILED))
  {
    var changes, comment, failed, raised;
    changes, comment, failed, raised, trace := SdaSteps(q, h);
    if raised.Some? {
      return Raised(raised.value), trace;
    }
    out := Returned(Report(q.name, changes, if !h.test || changes == NoChanges then Some(true) else None, comment));
  }

  /** `sda_installed` with the failure of the upload kept in the result;
      exceptions still end the run. */
  method SdaInstalled(q: SdaRequest, h: SdaHost) returns (out: StateOutcome, trace: seq<SdaAction>)
    ensures out.Raised? <==> SdaError(q, h).Some?
    ensures out.Raised? ==> out.error == SdaError(q, h).value
    ensures out.Returned? ==> out.report.name == q.name
    ensures out.Returned? ==>
              && (out.report.result == Some(true) <==> SdaPresent(q, h) || (!h.test && h.upload == Posted(true)))
              && (out.report.result == None <==> !SdaPresent(q, h) && h.test)
              && (out.report.result == Some(false) <==> Deploys(q, h) && h.upload == Posted(false))
              && (out.report.changes == NoChanges <==> SdaPresent(q, h) || (!h.test && h.upload == Posted(false)))
              && (out.report.comment == SDA_FAILED <==> out.report.result == Some(false))
    // The agent is asked only without `overwrite`; nothing is uploaded in a dry
    // run, when it is already installed, or when the ping or an archive raised.
    ensures Ping(PingUrl(h.fqdn)) in trace <==> !q.overwrite
    ensures (exists i :: 0 <= i < |trace| && trace[i].Upload?) <==> Deploys(q, h) && !h.upload.OpenRaised?
  {
    var changes, comment, failed, raised;
    changes, comment, failed, raised, trace := SdaSteps(q, h);
    if Deploys(q, h) && !h.upload.OpenRaised? {
      assert trace[|trace| - 1].Upload?;
    } else {
      assert forall i :: 0 <= i < |trace| ==> trace[i].Ping?;
    }
    if raised.Some? {
      return Raised(raised.value), trace;
    }
    var result := if failed then Some(false) else if !h.test || changes == NoChanges then Some(true) else None;
    out := Returned(Report(q.name, changes, result, comment));
  }
}
