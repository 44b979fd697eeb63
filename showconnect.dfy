/** Parsing the text `sldreg -showconnect <conf>` prints into a key/value map,
    and comparing that map with the desired SLD destination. */
module Showconnect {
  import opened Optional
  import opened Text

  /** The parameters looked for in every line, in the order they are tried. */
  const PARAMS: seq<string> := ["host_param", "https_param", "port_param", "user_param"]

  type Config = map<string, string>

  /** What one parameter contributes for one line: nothing when the line does
      not mention it; otherwise the text from the parameter up to the first
      `=` as key and the rest, stripped of surrounding `'`, as value; or a
      `ValueError` when no `=` follows. */
  datatype Entry = Absent | Malformed | Assign(key: string, value: string)

  function ParamEntry(line: string, param: string): (e: Entry)
    ensures e.Absent? <==> forall j :: !OccursAt(line, param, j)
    ensures e.Assign? ==> '=' !in e.key
    ensures e.Assign? && '=' !in param ==> param <= e.key
    ensures e.Assign? ==> |e.value| == 0 || (e.value[0] != '\'' && e.value[|e.value| - 1] != '\'')
  {
    match IndexOf(line, param)
    case None => Absent
    case Some(i) =>
      assert OccursAt(line, param, i);
      var rest := line[i..];
      match IndexOf(rest, "=")
      case None => Malformed
      case Some(j) =>
        KeyFacts(line, param, i, j);
        Assign(rest[..j], Strip(rest[j + 1..], '\''))
  }

  /** The key runs from the parameter up to the first `=` after it: it holds
      no `=`, and it starts with the parameter when that has none. */
  lemma KeyFacts(line: string, param: string, i: nat, j: nat)
    requires OccursAt(line, param, i) && IndexOf(line[i..], "=") == Some(j)
    ensures j < |line[i..]| && '=' !in line[i..][..j]
    ensures '=' !in param ==> param <= line[i..][..j]
  {
    var rest := line[i..];
    assert rest[..|param|] == param;
    FirstEquals(rest, j);
    assert j < |param| ==> param[j] == '=';
    assert j >= |param| ==> rest[..j][..|param|] == param;
  }

  /** Where `find("=")` stops: at an `=`, with none before it. */
  lemma FirstEquals(rest: string, j: nat)
    requires IndexOf(rest, "=") == Some(j)
    ensures j < |rest| && rest[j] == '=' && '=' !in rest[..j]
  {
    assert rest[j..j + 1] == "=";
    forall k | 0 <= k < j
      ensures rest[k] != '='
    {
      assert !OccursAt(rest, "=", k) && rest[k..k + 1] == [rest[k]];
    }
  }

  /** Slicing a suffix of a line is slicing the line. */
  lemma SuffixSlices(line: string, i: nat, j: nat)
    requires i + j < |line|
    ensures line[i..][..j] + [line[i + j]] == line[i..i + j + 1]
    ensures line[i..][j + 1..] == line[i + j + 1..]
  {
  }

  /** The entry in terms of the line's text: when the parameter first occurs
      at `i` and the first `=` after it is at `i + j`, the key is the text in
      between and the value the rest of the line with its quotes stripped. */
  lemma ParamEntryText(line: string, param: string, i: nat, j: nat)
    requires OccursAt(line, param, i) && forall k :: 0 <= k < i ==> !OccursAt(line, param, k)
    requires i + j < |line| && line[i + j] == '=' && '=' !in line[i..i + j]
    ensures ParamEntry(line, param) == Assign(line[i..i + j], Strip(line[i + j + 1..], '\''))
  {
    var rest := line[i..];
    FirstOccurrence(line, param, i);
    SuffixSlices(line, i, j);
    assert rest[..j] == line[i..i + j] && rest[j] == line[i + j];
    FirstEqualsAt(rest, j);
    ParamEntryAt(line, param, i, j);
  }

  /** An occurrence with none before it is what `find` returns. */
  lemma FirstOccurrence(line: string, pat: string, i: nat)
    requires OccursAt(line, pat, i) && forall k :: 0 <= k < i ==> !OccursAt(line, pat, k)
    ensures IndexOf(line, pat) == Some(i)
  {
  }

  /** An `=` with none before it is where `find("=")` stops. */
  lemma FirstEqualsAt(rest: string, j: nat)
    requires j < |rest| && rest[j] == '=' && '=' !in rest[..j]
    ensures IndexOf(rest, "=") == Some(j)
  {
    assert OccursAt(rest, "=", j) by {
      assert rest[j..j + 1] == [rest[j]];
    }
    forall k | 0 <= k < j
      ensures !OccursAt(rest, "=", k)
    {
      assert rest[k] == rest[..j][k];
      assert rest[k..k + 1] == [rest[k]];
    }
    FirstOccurrence(rest, "=", j);
  }

  /** `ParamEntry` once both searches have succeeded. */
  lemma ParamEntryAt(line: string, param: string, i: nat, j: nat)
    requires IndexOf(line, param) == Some(i)
    requires IndexOf(line[i..], "=") == Some(j)
    ensures ParamEntry(line, param) == Assign(line[i..][..j], Strip(line[i..][j + 1..], '\''))
  {
  }

  /** The unpacking raises exactly when the parameter occurs and no `=`
      follows its first occurrence. */
  lemma ParamEntryMalformed(line: string, param: string)
    ensures ParamEntry(line, param).Malformed? <==>
              IndexOf(line, param).Some? && '=' !in line[IndexOf(line, param).value..]
  {
    if IndexOf(line, param).Some? {
      var rest := line[IndexOf(line, param).value..];
      if IndexOf(rest, "=").None? {
        forall k | 0 <= k < |rest|
          ensures rest[k] != '='
        {
          assert !OccursAt(rest, "=", k) && rest[k..k + 1] == [rest[k]];
        }
      } else {
        FirstEquals(rest, IndexOf(rest, "=").value);
      }
    }
  }

  /** What each parameter contributes for one line, in parameter order. */
  function LineEntries(line: string): seq<Entry> {
    seq(|PARAMS|, q requires 0 <= q < |PARAMS| => ParamEntry(line, PARAMS[q]))
  }

  /** The `q`-th entry of a line is what the `q`-th parameter contributes. */
  lemma LineEntriesAt(line: string)
    ensures |LineEntries(line)| == |PARAMS|
    ensures forall q :: 0 <= q < |PARAMS| ==> LineEntries(line)[q] == ParamEntry(line, PARAMS[q])
  {
  }

  /** The inner loop: assign a line's entries in order; `None` once one of
      them raises. */
  function ApplyEntries(cfg: Config, es: seq<Entry>): Option<Config>
    decreases |es|
  {
    if |es| == 0 then Some(cfg)
    else
      match es[0]
      case Absent => ApplyEntries(cfg, es[1..])
      case Malformed => None
      case Assign(k, v) => ApplyEntries(cfg[k := v], es[1..])
  }

  /** The outer loop over the remaining lines. */
  function ParseLines(cfg: Config, lines: seq<string>): Option<Config>
    decreases |lines|
  {
    if |lines| == 0 then Some(cfg)
    else
      match ApplyEntries(cfg, LineEntries(lines[0]))
      case None => None
      case Some(c) => ParseLines(c, lines[1..])
  }

  /** The map parsed from the whole output, `None` if parsing raises. */
  function ParseShowconnect(stdout: string): Option<Config> {
    ParseLines(map[], Split(stdout, '\n'))
  }

  /** The entries one line contributes on its own. */
  function LineMap(line: string): Option<Config> {
    ApplyEntries(map[], LineEntries(line))
  }

  /** A line's assignments do not depend on what was parsed before: they are
      laid over it. */
  lemma {:induction false} ApplyEntriesOver(base: Config, d: Config, es: seq<Entry>)
    ensures ApplyEntries(base + d, es).Some? == ApplyEntries(d, es).Some?
    ensures ApplyEntries(d, es).Some? ==> ApplyEntries(base + d, es).value == base + ApplyEntries(d, es).value
    decreases |es|
  {
    if |es| > 0 {
      match es[0] {
        case Absent => ApplyEntriesOver(base, d, es[1..]);
        case Malformed =>
        case Assign(k, v) =>
          assert (base + d)[k := v] == base + d[k := v];
          ApplyEntriesOver(base, d[k := v], es[1..]);
      }
    }
  }

  /** Parsing a line lays its own entries over the map built so far. */
  lemma ApplyLine(cfg: Config, line: string)
    ensures ApplyEntries(cfg, LineEntries(line)).Some? == LineMap(line).Some?
    ensures LineMap(line).Some? ==> ApplyEntries(cfg, LineEntries(line)).value == cfg + LineMap(line).value
  {
    assert cfg + map[] == cfg;
    ApplyEntriesOver(cfg, map[], LineEntries(line));
  }

  /** One step of the outer loop, in terms of the line's own entries. */
  lemma ParseLinesStep(cfg: Config, lines: seq<string>)
    requires |lines| > 0
    ensures ParseLines(cfg, lines) ==
              if LineMap(lines[0]).Some? then ParseLines(cfg + LineMap(lines[0]).value, lines[1..]) else None
  {
    ApplyLine(cfg, lines[0]);
  }

  /** Some parameter of the line is followed by no `=`: its unpacking raises. */
  predicate LineRaises(line: string) {
    exists q :: 0 <= q < |PARAMS| && ParamEntry(line, PARAMS[q]).Malformed?
  }

  /** The inner loop raises exactly when one of its entries does. */
  lemma {:induction false} ApplyEntriesFails(cfg: Config, es: seq<Entry>)
    ensures ApplyEntries(cfg, es).None? <==> exists q :: 0 <= q < |es| && es[q].Malformed?
    decreases |es|
  {
    if |es| > 0 {
      match es[0] {
        case Absent => ApplyEntriesFails(cfg, es[1..]);
        case Malformed =>
        case Assign(k, v) => ApplyEntriesFails(cfg[k := v], es[1..]);
      }
      assert forall q :: 0 < q < |es| ==> es[q] == es[1..][q - 1];
    }
  }

  /** The outer loop raises exactly when some line does. */
  lemma {:induction false} ParseLinesFails(cfg: Config, lines: seq<string>)
    ensures ParseLines(cfg, lines).None? <==> exists k :: 0 <= k < |lines| && LineRaises(lines[k])
    decreases |lines|
  {
    if |lines| > 0 {
      var es := LineEntries(lines[0]);
      LineEntriesAt(lines[0]);
      ApplyEntriesFails(cfg, es);
      assert (exists q :: 0 <= q < |es| && es[q].Malformed?) <==> LineRaises(lines[0]);
      match ApplyEntries(cfg, es) {
        case None =>
        case Some(c) => ParseLinesFails(c, lines[1..]);
      }
      assert forall k :: 0 < k < |lines| ==> lines[k] == lines[1..][k - 1];
    }
  }

  /** Parsing the output raises (`ValueError` from the unpacking) exactly when
      one of its lines mentions a parameter with no `=` after it. */
  lemma ParseFailsIff(stdout: string, lines: seq<string>)
    requires lines == Split(stdout, '\n')
    ensures ParseShowconnect(stdout).None? <==> exists k :: 0 <= k < |lines| && LineRaises(lines[k])
  {
    ParseLinesFails(map[], lines);
  }

  /** A key no later line assigns keeps its value. */
  lemma {:induction false} UntouchedKeyKept(cfg: Config, lines: seq<string>, k: string)
    requires k in cfg
    requires ParseLines(cfg, lines).Some?
    requires forall j :: 0 <= j < |lines| && LineMap(lines[j]).Some? ==> k !in LineMap(lines[j]).value
    ensures k in ParseLines(cfg, lines).value && ParseLines(cfg, lines).value[k] == cfg[k]
    decreases |lines|
  {
    if |lines| > 0 {
      ParseLinesStep(cfg, lines);
      var c := cfg + LineMap(lines[0]).value;
      assert forall j :: 0 <= j < |lines| - 1 ==> lines[1..][j] == lines[j + 1];
      UntouchedKeyKept(c, lines[1..], k);
    }
  }

  /** Later lines overwrite earlier ones: a key ends with the value of the last
      line that assigns it. */
  lemma {:induction false} LastLineWins(cfg: Config, lines: seq<string>, i: nat, k: string)
    requires i < |lines| && LineMap(lines[i]).Some? && k in LineMap(lines[i]).value
    requires ParseLines(cfg, lines).Some?
    requires forall j :: i < j < |lines| && LineMap(lines[j]).Some? ==> k !in LineMap(lines[j]).value
    ensures k in ParseLines(cfg, lines).value
    ensures ParseLines(cfg, lines).value[k] == LineMap(lines[i]).value[k]
    decreases i
  {
    ParseLinesStep(cfg, lines);
    var first := LineMap(lines[0]);
    assert first.Some?;
    var c := cfg + first.value;
    var tail := lines[1..];
    assert ParseLines(cfg, lines) == ParseLines(c, tail);
    forall j | i <= j < |tail| && LineMap(tail[j]).Some?
      ensures k !in LineMap(tail[j]).value
    {
      assert tail[j] == lines[j + 1];
    }
    if i == 0 {
      assert k in c && c[k] == first.value[k];
      UntouchedKeyKept(c, tail, k);
    } else {
      assert tail[i - 1] == lines[i];
      LastLineWins(c, tail, i - 1, k);
    }
  }

  /** A line printed as `param='value'` yields exactly that entry. */
  lemma RenderedEntry(param: string, v: string)
    requires '=' !in param
    requires |v| == 0 || (v[0] != '\'' && v[|v| - 1] != '\'')
    ensures ParamEntry(param + "='" + v + "'", param) == Assign(param, v)
  {
    var line := param + "='" + v + "'";
    RenderedPieces(param, v);
    EntryAfterName(line, param);
    StripWrapped("'", v, "'", '\'');
  }

  /** A line that starts with `param` and then `=`: the key is `param` and
      the value the rest of the line, stripped. */
  lemma EntryAfterName(line: string, param: string)
    requires '=' !in param
    requires OccursAt(line, param, 0) && line[0..|param|] == param
    requires |param| < |line| && line[|param|] == '='
    ensures ParamEntry(line, param) == Assign(param, Strip(line[|param| + 1..], '\''))
  {
    assert line[0..] == line && line[..|param|] == param;
    FirstOccurrence(line, param, 0);
    FirstEqualsAt(line, |param|);
    ParamEntryAt(line, param, 0, |param|);
  }

  /** The pieces of `param='value'`: the name, the `=`, the quoted value. */
  lemma RenderedPieces(param: string, v: string)
    ensures var line := param + "='" + v + "'";
      && OccursAt(line, param, 0) && line[0..|param|] == param && |param| < |line|
      && line[|param|] == '=' && line[|param| + 1..] == "'" + v + "'"
  {
    var line := param + "='" + v + "'";
    assert line[0..|param|] == param;
    assert line[|param| + 1..] == "'" + v + "'";
  }

  /** The value a key has in the parsed map, Python's `dict.get`. */
  function Get(cfg: Config, key: string): Option<string> {
    if key in cfg then Some(cfg[key]) else None
  }

  /** The existing destination is the desired one: same user, same host, same
      port (compared as text, a missing port as `""`) and HTTPS on (`y`). */
  predicate ConfigMatches(cfg: Config, host: string, port: string, user: string) {
    && Get(cfg, "user_param") == Some(user)
    && Get(cfg, "host_param") == Some(host)
    && port == Get(cfg, "port_param").GetOr("")
    && Get(cfg, "https_param") == Some("y")
  }

  /** A parameter printed as `param='value'`. */
  function Rendered(param: string, v: string): string {
    param + "='" + v + "'"
  }

  /** A value that prints unambiguously: no parameter name occurs in it, it
      has no line break, and no quote at either end. */
  predicate PlainValue(v: string) {
    && '\n' !in v
    && (|v| == 0 || (v[0] != '\'' && v[|v| - 1] != '\''))
    && forall q, j :: 0 <= q < |PARAMS| && 0 <= j <= |v| ==> !OccursAt(v, PARAMS[q], j)
  }

  /** Inside a printed name (followed by `=`), a parameter name can start only
      at the beginning, and only the name itself: no name starts with another
      name's first two characters elsewhere. */
  lemma NameStart(q: nat, q2: nat, line: string, j: nat)
    requires q < |PARAMS| && q2 < |PARAMS| && j < |PARAMS[q]|
    requires |PARAMS[q]| < |line| && line[..|PARAMS[q]|] == PARAMS[q] && line[|PARAMS[q]|] == '='
    requires OccursAt(line, PARAMS[q2], j)
    ensures j == 0 && q2 == q
  {
    var p, p2 := PARAMS[q], PARAMS[q2];
    assert p2[0] == line[j..j + |p2|][0] == line[j];
    assert p2[1] == line[j..j + |p2|][1] == line[j + 1];
    assert line[j] == p[j];
    assert j + 1 < |p| ==> line[j + 1] == p[j + 1];
  }

  /** After a printed name no parameter name starts: the `='` holds none, the
      value holds none, and none ends in the closing quote. */
  lemma NoNameAfter(q: nat, v: string, q2: nat, j: nat)
    requires q < |PARAMS| && q2 < |PARAMS| && PlainValue(v)
    ensures OccursAt(Rendered(PARAMS[q], v), PARAMS[q2], j) ==> j < |PARAMS[q]|
  {
    var p, p2, line := PARAMS[q], PARAMS[q2], Rendered(PARAMS[q], v);
    var n := |p| + 2 + |v|;
    assert |line| == n + 1;
    if |p| <= j < |p| + 2 {
      assert line[j] == '=' || line[j] == '\'';
      assert p2[0] != line[j];
    } else if |p| + 2 <= j < n {
      if j + |p2| <= n {
        assert line[j..j + |p2|] == v[j - |p| - 2..j - |p| - 2 + |p2|];
        assert !OccursAt(v, p2, j - |p| - 2);
      } else {
        assert line[n] == '\'';
        assert p2[n - j] != line[n];
      }
    }
  }

  /** A parameter name occurs in a printed parameter only as its own name. */
  lemma RenderedOccurrence(q: nat, v: string, q2: nat)
    requires q < |PARAMS| && q2 < |PARAMS| && PlainValue(v)
    ensures forall j :: OccursAt(Rendered(PARAMS[q], v), PARAMS[q2], j) ==> q2 == q && j == 0
  {
    var p, line := PARAMS[q], Rendered(PARAMS[q], v);
    assert line[..|p|] == p && line[|p|] == '=';
    forall j | OccursAt(line, PARAMS[q2], j)
      ensures q2 == q && j == 0
    {
      NoNameAfter(q, v, q2, j);
      NameStart(q, q2, line, j);
    }
  }

  /** The inner loop over entries all absent but one. */
  lemma {:induction false} ApplyOneAssign(cfg: Config, es: seq<Entry>, q: nat, k: string, v: string)
    requires q < |es| && es[q] == Assign(k, v)
    requires forall q2 :: 0 <= q2 < |es| && q2 != q ==> es[q2] == Absent
    ensures ApplyEntries(cfg, es) == Some(cfg[k := v])
    decreases |es|
  {
    if q == 0 {
      ApplyNoAssign(cfg[k := v], es[1..]);
    } else {
      ApplyOneAssign(cfg, es[1..], q - 1, k, v);
    }
  }

  /** The inner loop over absent entries only. */
  lemma {:induction false} ApplyNoAssign(cfg: Config, es: seq<Entry>)
    requires forall q :: 0 <= q < |es| ==> es[q] == Absent
    ensures ApplyEntries(cfg, es) == Some(cfg)
    decreases |es|
  {
    if |es| > 0 {
      ApplyNoAssign(cfg, es[1..]);
    }
  }

  /** A printed parameter mentions no other parameter. */
  lemma RenderedOthersAbsent(q: nat, v: string, q2: nat)
    requires q < |PARAMS| && q2 < |PARAMS| && q2 != q && PlainValue(v)
    ensures ParamEntry(Rendered(PARAMS[q], v), PARAMS[q2]) == Absent
  {
    RenderedOccurrence(q, v, q2);
  }

  /** What each parameter contributes for a printed parameter: its own
      entry, and nothing for the others. */
  lemma RenderedEntries(q: nat, v: string)
    requires q < |PARAMS| && PlainValue(v)
    ensures forall q2 :: 0 <= q2 < |PARAMS| ==>
              ParamEntry(Rendered(PARAMS[q], v), PARAMS[q2]) == if q2 == q then Assign(PARAMS[q], v) else Absent
  {
    forall q2 | 0 <= q2 < |PARAMS| && q2 != q
      ensures ParamEntry(Rendered(PARAMS[q], v), PARAMS[q2]) == Absent
    {
      RenderedOthersAbsent(q, v, q2);
    }
    RenderedEntry(PARAMS[q], v);
  }

  /** A line where only one parameter assigns contributes just that key. */
  lemma OneEntryLine(line: string, q: nat, k: string, v: string)
    requires q < |PARAMS|
    requires forall q2 :: 0 <= q2 < |PARAMS| ==> ParamEntry(line, PARAMS[q2]) == if q2 == q then Assign(k, v) else Absent
    ensures LineMap(line) == Some(map[k := v])
  {
    var es := LineEntries(line);
    LineEntriesAt(line);
    forall q2 | 0 <= q2 < |es| && q2 != q
      ensures es[q2] == Absent
    {
      assert es[q2] == ParamEntry(line, PARAMS[q2]);
    }
    assert es[q] == ParamEntry(line, PARAMS[q]);
    ApplyOneAssign(map[], es, q, k, v);
    assert map[][k := v] == map[k := v];
  }

  /** A printed parameter assigns exactly that parameter its value. */
  lemma RenderedLine(q: nat, v: string)
    requires q < |PARAMS| && PlainValue(v)
    ensures LineMap(Rendered(PARAMS[q], v)) == Some(map[PARAMS[q] := v])
  {
    RenderedEntries(q, v);
    OneEntryLine(Rendered(PARAMS[q], v), q, PARAMS[q], v);
  }

  /** The four lines that print a destination. */
  function RenderedDestination(host: string, port: string, user: string): seq<string> {
    [Rendered(PARAMS[0], host), Rendered(PARAMS[1], "y"), Rendered(PARAMS[2], port), Rendered(PARAMS[3], user)]
  }

  /** The printed destination splits back into its four lines. */
  lemma RenderedSplit(host: string, port: string, user: string)
    requires PlainValue(host) && PlainValue(port) && PlainValue(user)
    ensures Split(Join(RenderedDestination(host, port, user), '\n'), '\n') == RenderedDestination(host, port, user)
  {
    var lines := RenderedDestination(host, port, user);
    forall k | 0 <= k < |lines|
      ensures '\n' !in lines[k]
    {
      var v := [host, "y", port, user][k];
      assert lines[k] == PARAMS[k] + "='" + v + "'";
    }
    SplitJoin(lines, '\n');
  }

  /** Four lines that each parse on their own are laid over the map in order. */
  lemma ParseFourLines(cfg: Config, l0: string, l1: string, l2: string, l3: string,
                       m0: Config, m1: Config, m2: Config, m3: Config)
    requires LineMap(l0) == Some(m0) && LineMap(l1) == Some(m1)
    requires LineMap(l2) == Some(m2) && LineMap(l3) == Some(m3)
    ensures ParseLines(cfg, [l0, l1, l2, l3]) == Some(cfg + m0 + m1 + m2 + m3)
  {
    var lines := [l0, l1, l2, l3];
    ParseLinesStep(cfg, lines);
    assert lines[1..] == [l1, l2, l3];
    ParseLinesStep(cfg + m0, [l1, l2, l3]);
    assert [l1, l2, l3][1..] == [l2, l3];
    ParseLinesStep(cfg + m0 + m1, [l2, l3]);
    assert [l2, l3][1..] == [l3];
    ParseLinesStep(cfg + m0 + m1 + m2, [l3]);
  }

  /** The four one-key maps laid over the empty map. */
  lemma FourKeys(host: string, port: string, user: string)
    ensures map[] + map[PARAMS[0] := host] + map[PARAMS[1] := "y"] + map[PARAMS[2] := port] + map[PARAMS[3] := user]
              == map["host_param" := host, "https_param" := "y", "port_param" := port, "user_param" := user]
  {
  }

  /** The `https_param` value `y` prints unambiguously. */
  lemma HttpsValuePlain()
    ensures PlainValue("y")
  {
    forall q, j | 0 <= q < |PARAMS| && 0 <= j <= 1
      ensures !OccursAt("y", PARAMS[q], j)
    {
      assert |PARAMS[q]| > 1;
    }
  }

  /** The SLD user the states document, `SLD_DS_USER`, prints unambiguously. */
  lemma DocumentedUserPlain()
    ensures PlainValue("SLD_DS_USER")
  {
    var v := "SLD_DS_USER";
    forall q, j | 0 <= q < |PARAMS| && 0 <= j <= |v|
      ensures !OccursAt(v, PARAMS[q], j)
    {
      assert j < |v| ==> v[j] != PARAMS[q][0];
    }
  }

  /** The four lines are parsed one after the other, each laid over the last. */
  lemma RenderedParse(host: string, port: string, user: string)
    requires PlainValue(host) && PlainValue(port) && PlainValue(user)
    ensures ParseShowconnect(Join(RenderedDestination(host, port, user), '\n')) ==
              Some(map["host_param" := host, "https_param" := "y", "port_param" := port, "user_param" := user])
  {
    RenderedSplit(host, port, user);
    RenderedLine(0, host);
    HttpsValuePlain();
    RenderedLine(1, "y");
    RenderedLine(2, port);
    RenderedLine(3, user);
    ParseFourLines(map[], Rendered(PARAMS[0], host), Rendered(PARAMS[1], "y"), Rendered(PARAMS[2], port), Rendered(PARAMS[3], user),
                   map[PARAMS[0] := host], map[PARAMS[1] := "y"], map[PARAMS[2] := port], map[PARAMS[3] := user]);
    FourKeys(host, port, user);
  }

  /** A destination printed line by line as `host_param='h'`, `https_param='y'`,
      `port_param='p'`, `user_param='u'` reads back as a configuration that
      matches that destination and no other. */
  lemma RenderedOutputMatches(host: string, port: string, user: string)
    requires PlainValue(host) && PlainValue(port) && PlainValue(user)
    ensures var out := ParseShowconnect(Join(RenderedDestination(host, port, user), '\n'));
      && out.Some?
      && forall h, p, u :: ConfigMatches(out.value, h, p, u) <==> h == host && p == port && u == user
  {
    RenderedParse(host, port, user);
    var out := ParseShowconnect(Join(RenderedDestination(host, port, user), '\n'));
    DestinationMatches(out.value, host, port, user);
  }

  /** A configuration holding exactly the four keys matches its own values only. */
  lemma DestinationMatches(cfg: Config, host: string, port: string, user: string)
    requires cfg == map["host_param" := host, "https_param" := "y", "port_param" := port, "user_param" := user]
    ensures forall h, p, u :: ConfigMatches(cfg, h, p, u) <==> h == host && p == port && u == user
  {
    assert Get(cfg, "host_param") == Some(host) && Get(cfg, "https_param") == Some("y");
    assert Get(cfg, "port_param") == Some(port) && Get(cfg, "user_param") == Some(user);
  }

  /** The parsing loops: each line of the output is searched for each
      parameter, and each hit assigns its key. `None` when a line raises. */
  method ParseOutput(stdout: string) returns (cfg: Option<Config>)
    ensures cfg == ParseShowconnect(stdout)
  {
    var lines := Split(stdout, '\n');
    var existing: Config := map[];
    for k := 0 to |lines|
      invariant ParseLines(existing, lines[k..]) == ParseShowconnect(stdout)
    {
      var line := lines[k];
      ghost var before := existing;
      ghost var entries := LineEntries(line);
      LineEntriesAt(line);
      assert lines[k..][0] == line && lines[k..][1..] == lines[k + 1..];
      for q := 0 to |PARAMS|
        invariant ApplyEntries(existing, entries[q..]) == ApplyEntries(before, entries)
      {
        var param := PARAMS[q];
        assert entries[q..][0] == ParamEntry(line, param) && entries[q..][1..] == entries[q + 1..];
        match IndexOf(line, param) {
          case None =>
          case Some(i) =>
            var rest := line[i..];
            match IndexOf(rest, "=") {
              case None =>
                assert ParamEntry(line, param) == Malformed;
                return None;
              case Some(j) =>
                ParamEntryAt(line, param, i, j);
                existing := existing[rest[..j] := Strip(rest[j + 1..], '\'')];
            }
        }
      }
      assert entries[|PARAMS|..] == [];
    }
    return Some(existing);
  }
}
