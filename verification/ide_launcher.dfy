/**
 * The editor launcher of `src/utils.ts` with the process calls taken out:
 * which applications are tried, in which order, and what the caller is told.
 * The operating system is the `Host` parameter.
 */
module IdeLauncher {
  import opened Wrappers
  import Text

  /**
   * What the launcher can observe of the machine. `opens(app, path)` is
   * whether `open -a "app" "path"` succeeds, `toolboxOpens(path)` whether the
   * JetBrains Toolbox command line does, `applications` the listing of
   * `/Applications` (`None` when reading it throws), and `normalize` stands
   * for `path.normalize`.
   */
  datatype Host = Host(
    normalize: string -> string,
    opens: (string, string) -> bool,
    toolboxOpens: string -> bool,
    applications: Option<seq<string>>)

  /** One process launch the launcher performs. */
  datatype Attempt = OpenWith(app: string, path: string) | ToolboxCli(path: string)

  /** How a launch succeeded. */
  datatype Method = App(name: string) | Toolbox

  /** Why a launch failed. */
  datatype Failure =
    | Unsupported(message: string)   // thrown by the dispatcher
    | AppFailed(app: string)          // the single `open -a` of a classic editor failed
    | NotFound(message: string)       // IntelliJ: every candidate and the Toolbox failed

  /** Everything a request did: the launches in order, and how it ended. */
  datatype Launch = Launch(attempts: seq<Attempt>, outcome: Result<Method, Failure>)

  /** What the dispatcher picked for an editor name. */
  datatype Strategy = ClassicApp(appName: string) | IntelliJ

  const IntelliJNotFound: string := "Could not open IntelliJ with any known method"

  /** The well-known IntelliJ bundle names, tried before anything found on disk. */
  const FixedNames: seq<string> := [
    "IntelliJ IDEA.app",
    "IntelliJ IDEA Ultimate.app",
    "IntelliJ IDEA CE.app",
    "JetBrains Toolbox/IntelliJ IDEA Ultimate.app",
    "JetBrains Toolbox/IntelliJ IDEA.app"
  ]

  /** Whether a launch succeeds on `host`. */
  predicate Launched(host: Host, a: Attempt)
  {
    match a
    case OpenWith(app, path) => host.opens(app, path)
    case ToolboxCli(path) => host.toolboxOpens(path)
  }

  /**
   * The `switch` on `ide.toLowerCase()`: the two classic editors by their
   * application names, IntelliJ by its own strategy, anything else rejected
   * with a message that quotes the name as given.
   */
  function Dispatch(ide: string): (r: Result<Strategy, Failure>)
    ensures r == Success(ClassicApp("Visual Studio Code")) <==> Text.Lower(ide) == "vscode"
    ensures r == Success(ClassicApp("VSCodium")) <==> Text.Lower(ide) == "vscodium"
    ensures r == Success(IntelliJ) <==> Text.Lower(ide) == "intellij"
    ensures r.Failure? <==> Text.Lower(ide) !in ["vscode", "vscodium", "intellij"]
    ensures r.Failure? ==> r.error == Unsupported("Unsupported IDE: " + ide)
  {
    var key := Text.Lower(ide);
    if key == "vscode" then Success(ClassicApp("Visual Studio Code"))
    else if key == "vscodium" then Success(ClassicApp("VSCodium"))
    else if key == "intellij" then Success(IntelliJ)
    else Failure(Unsupported("Unsupported IDE: " + ide))
  }

  /** Editor names that differ only in ASCII letter case are dispatched alike. */
  lemma DispatchIgnoresCase(a: string, b: string)
    requires Text.Lower(a) == Text.Lower(b)
    ensures Dispatch(a).Success? <==> Dispatch(b).Success?
    ensures Dispatch(a).Success? ==> Dispatch(a) == Dispatch(b)
  {
  }

  /** The name filter on `/Applications`: mentions IntelliJ or JetBrains, in any case. */
  predicate IsJetBrainsEntry(name: string)
  {
    Text.Includes(Text.Lower(name), "intellij") || Text.Includes(Text.Lower(name), "jetbrains")
  }

  /** `appDirContents.filter(IsJetBrainsEntry)`. */
  function Discovered(entries: seq<string>): (r: seq<string>)
    ensures |r| <= |entries|
    ensures forall x :: x in r <==> x in entries && IsJetBrainsEntry(x)
    decreases |entries|
  {
    if |entries| == 0 then []
    else
      var rest := Discovered(entries[1..]);
      assert forall x :: x in entries <==> x == entries[0] || x in entries[1..];
      if IsJetBrainsEntry(entries[0]) then [entries[0]] + rest else rest
  }

  /** The filter keeps listing order: it distributes over concatenation. */
  lemma {:induction false} DiscoveredAppend(a: seq<string>, b: seq<string>)
    ensures Discovered(a + b) == Discovered(a) + Discovered(b)
    decreases |a|
  {
    if |a| == 0 {
      assert a + b == b;
    } else {
      assert (a + b)[0] == a[0] && (a + b)[1..] == a[1..] + b;
      DiscoveredAppend(a[1..], b);
    }
  }

  /**
   * The candidate list: the fixed names, then the matching directory entries
   * in listing order; only the fixed names when the directory cannot be read.
   */
  function Candidates(listing: Option<seq<string>>): (r: seq<string>)
    ensures |r| >= |FixedNames| && r[..|FixedNames|] == FixedNames
    ensures listing.None? ==> r == FixedNames
    ensures listing.Some? ==> r[|FixedNames|..] == Discovered(listing.value)
  {
    match listing
    case None => FixedNames
    case Some(entries) => FixedNames + Discovered(entries)
  }

  /** The state the candidate loop leaves behind: names tried, and the one that opened. */
  datatype Scan = Scan(tried: seq<string>, winner: Option<string>)

  /**
   * The `for ... of` loop with `break`: try each candidate in order and stop
   * at the first that opens. Every name before the stopping point failed,
   * and without a success every candidate was tried.
   */
  function ScanCandidates(cands: seq<string>, path: string, opens: (string, string) -> bool): (s: Scan)
    ensures |s.tried| <= |cands| && s.tried == cands[..|s.tried|]
    ensures forall i :: 0 <= i < |s.tried| ==>
      (opens(s.tried[i], path) <==> s.winner.Some? && i == |s.tried| - 1)
    ensures s.winner.Some? ==> |s.tried| > 0 && s.winner.value == s.tried[|s.tried| - 1]
    ensures s.winner.None? ==> s.tried == cands
    ensures s.winner.Some? <==> exists i :: 0 <= i < |cands| && opens(cands[i], path)
    decreases |cands|
  {
    if |cands| == 0 then Scan([], None)
    else if opens(cands[0], path) then Scan([cands[0]], Some(cands[0]))
    else
      var rest := ScanCandidates(cands[1..], path, opens);
      assert forall i :: 0 < i < |cands| ==> cands[i] == cands[1..][i - 1];
      Scan([cands[0]] + rest.tried, rest.winner)
  }

  /** The candidates as `OpenWith` launches on `path`. */
  function Opens(names: seq<string>, path: string): (r: seq<Attempt>)
    ensures |r| == |names|
    ensures forall i :: 0 <= i < |names| ==> r[i] == OpenWith(names[i], path)
  {
    seq(|names|, i requires 0 <= i < |names| => OpenWith(names[i], path))
  }

  /**
   * The body of `openInIntellij` once the path is normalized and the
   * candidates are listed: the candidate scan, then the Toolbox command line
   * only if no candidate opened, then the failure.
   */
  function Resolve(cands: seq<string>, p: string, host: Host): Launch
  {
    var s := ScanCandidates(cands, p, host.opens);
    var apps := Opens(s.tried, p);
    match s.winner
    case Some(app) => Launch(apps, Success(App(app)))
    case None =>
      if host.toolboxOpens(p) then Launch(apps + [ToolboxCli(p)], Success(Toolbox))
      else Launch(apps + [ToolboxCli(p)], Failure(NotFound(IntelliJNotFound)))
  }

  /** `openInIntellij`: normalize the path, list the candidates, resolve. */
  function OpenInIntellij(path: string, host: Host): Launch
  {
    Resolve(Candidates(host.applications), host.normalize(path), host)
  }

  /** `openInClassicApp`: a single `open -a`, whose failure is final. */
  function OpenInClassicApp(path: string, app: string, host: Host): Launch
  {
    Launch([OpenWith(app, path)], if host.opens(app, path) then Success(App(app)) else Failure(AppFailed(app)))
  }

  /** `openInIDE`: normalize the path, dispatch on the editor name, launch. */
  function OpenInIde(path: string, ide: string, host: Host): Launch
  {
    var p := host.normalize(path);
    match Dispatch(ide)
    case Failure(f) => Launch([], Failure(f))
    case Success(ClassicApp(app)) => OpenInClassicApp(p, app, host)
    case Success(IntelliJ) => OpenInIntellij(p, host)
  }

  /**
   * The same loop as the source writes it: append each name to the log of
   * attempts, stop with `break` at the first that opens.
   */
  method TryCandidates(cands: seq<string>, path: string, opens: (string, string) -> bool)
    returns (tried: seq<string>, winner: Option<string>)
    ensures Scan(tried, winner) == ScanCandidates(cands, path, opens)
  {
    tried, winner := [], None;
    var i := 0;
    while i < |cands|
      invariant 0 <= i <= |cands|
      invariant tried == cands[..i] && winner.None?
      invariant forall j :: 0 <= j < i ==> !opens(cands[j], path)
    {
      tried := tried + [cands[i]];
      if opens(cands[i], path) {
        winner := Some(cands[i]);
        break;
      }
      i := i + 1;
    }
    ScanDetermined(cands, path, opens, Scan(tried, winner));
  }

  /** The contract of `ScanCandidates` pins its result down: any scan meeting it is that one. */
  lemma ScanDetermined(cands: seq<string>, path: string, opens: (string, string) -> bool, s: Scan)
    requires |s.tried| <= |cands| && s.tried == cands[..|s.tried|]
    requires forall i :: 0 <= i < |s.tried| ==> (opens(s.tried[i], path) <==> s.winner.Some? && i == |s.tried| - 1)
    requires s.winner.Some? ==> |s.tried| > 0 && s.winner.value == s.tried[|s.tried| - 1]
    requires s.winner.None? ==> s.tried == cands
    ensures s == ScanCandidates(cands, path, opens)
  {
    var t := ScanCandidates(cands, path, opens);
  }

  /**
   * When candidate `k` is the first that opens, IntelliJ opens with it after
   * exactly the candidates up to `k` were tried, and the Toolbox is not tried.
   */
  lemma IntelliJStopsAtFirst(path: string, host: Host, k: nat)
    requires k < |Candidates(host.applications)|
    requires host.opens(Candidates(host.applications)[k], host.normalize(path))
    requires forall j :: 0 <= j < k ==> !host.opens(Candidates(host.applications)[j], host.normalize(path))
    ensures OpenInIntellij(path, host).outcome == Success(App(Candidates(host.applications)[k]))
    ensures OpenInIntellij(path, host).attempts == Opens(Candidates(host.applications)[..k + 1], host.normalize(path))
    ensures ToolboxCli(host.normalize(path)) !in OpenInIntellij(path, host).attempts
  {
    var p := host.normalize(path);
    var cands := Candidates(host.applications);
    ScanDetermined(cands, p, host.opens, Scan(cands[..k + 1], Some(cands[k])));
  }

  /**
   * When no candidate opens, every candidate is tried in order, then the
   * Toolbox command line once; the request succeeds exactly when that does.
   */
  lemma IntelliJFallsBack(path: string, host: Host)
    requires forall app :: app in Candidates(host.applications) ==> !host.opens(app, host.normalize(path))
    ensures OpenInIntellij(path, host).attempts
      == Opens(Candidates(host.applications), host.normalize(path)) + [ToolboxCli(host.normalize(path))]
    ensures OpenInIntellij(path, host).outcome.Success? <==> host.toolboxOpens(host.normalize(path))
    ensures OpenInIntellij(path, host).outcome.Success? ==> OpenInIntellij(path, host).outcome.value == Toolbox
    ensures OpenInIntellij(path, host).outcome.Failure? ==>
      OpenInIntellij(path, host).outcome.error == NotFound("Could not open IntelliJ with any known method")
  {
    var p := host.normalize(path);
    var s := ScanCandidates(Candidates(host.applications), p, host.opens);
    assert s.winner.None?;
  }

  /**
   * An unreadable `/Applications` costs only the discovered candidates: the
   * fixed names are tried and the request ends as usual, never with the read
   * error.
   */
  lemma IntelliJSurvivesUnreadableDirectory(path: string, host: Host)
    requires host.applications.None?
    ensures forall a :: a in OpenInIntellij(path, host).attempts && a.OpenWith? ==> a.app in FixedNames
    ensures OpenInIntellij(path, host).outcome.Failure? ==>
      OpenInIntellij(path, host).outcome.error == NotFound(IntelliJNotFound)
  {
    ResolveTriesOnlyCandidates(FixedNames, host.normalize(path), host);
  }

  /** The resolution opens only candidates, and its one failure is "not found". */
  lemma ResolveTriesOnlyCandidates(cands: seq<string>, p: string, host: Host)
    ensures forall a :: a in Resolve(cands, p, host).attempts && a.OpenWith? ==> a.app in cands
    ensures Resolve(cands, p, host).outcome.Failure? ==>
      Resolve(cands, p, host).outcome.error == NotFound(IntelliJNotFound)
  {
    var s := ScanCandidates(cands, p, host.opens);
    var l := Resolve(cands, p, host);
    forall a | a in l.attempts && a.OpenWith?
      ensures a.app in cands
    {
      var i :| 0 <= i < |l.attempts| && l.attempts[i] == a;
      assert i < |s.tried|;
      assert a.app == s.tried[i] == cands[i];
    }
  }

  /**
   * The third well-known name as the only installed editor: it opens, after
   * the first two were tried, and the Toolbox is not tried.
   */
  lemma IntelliJOnlyCommunityInstalled(path: string, host: Host)
    requires forall app :: host.opens(app, host.normalize(path)) <==> app == "IntelliJ IDEA CE.app"
    ensures OpenInIntellij(path, host).outcome == Success(App("IntelliJ IDEA CE.app"))
    ensures OpenInIntellij(path, host).attempts == Opens(FixedNames[..3], host.normalize(path))
  {
    var cands := Candidates(host.applications);
    assert cands[..5] == FixedNames;
    assert cands[2] == FixedNames[2];
    forall j | 0 <= j < 2 ensures !host.opens(cands[j], host.normalize(path)) {
      assert cands[j] == FixedNames[j];
    }
    IntelliJStopsAtFirst(path, host, 2);
    assert cands[..3] == FixedNames[..3];
  }

  /**
   * Nothing installed, the directory unreadable, the Toolbox failing: the
   * five fixed names and the Toolbox are tried, and the answer is not found.
   */
  lemma IntelliJNothingWorks(path: string, host: Host)
    requires host.applications.None?
    requires forall app :: !host.opens(app, host.normalize(path))
    requires !host.toolboxOpens(host.normalize(path))
    ensures OpenInIntellij(path, host).outcome == Failure(NotFound("Could not open IntelliJ with any known method"))
    ensures |OpenInIntellij(path, host).attempts| == |FixedNames| + 1
  {
    IntelliJFallsBack(path, host);
  }

  /**
   * The shape every request has: it succeeds exactly when its last launch
   * did, every earlier launch failed, and the reported method is the last
   * launch.
   */
  predicate Sound(host: Host, l: Launch)
  {
    && (l.outcome.Success? <==> |l.attempts| > 0 && Launched(host, l.attempts[|l.attempts| - 1]))
    && (forall i :: 0 <= i < |l.attempts| - 1 ==> !Launched(host, l.attempts[i]))
    && (l.outcome.Success? && l.outcome.value.App? ==>
          (l.attempts[|l.attempts| - 1].OpenWith? && l.attempts[|l.attempts| - 1].app == l.outcome.value.name))
    && (l.outcome.Success? && l.outcome.value.Toolbox? ==> l.attempts[|l.attempts| - 1].ToolboxCli?)
  }

  /** The IntelliJ resolution has that shape on every host. */
  lemma IntelliJSound(path: string, host: Host)
    ensures Sound(host, OpenInIntellij(path, host))
  {
    ResolveSound(Candidates(host.applications), host.normalize(path), host);
  }

  /** The resolution has that shape for any candidate list. */
  lemma ResolveSound(cands: seq<string>, p: string, host: Host)
    ensures Sound(host, Resolve(cands, p, host))
  {
    var s := ScanCandidates(cands, p, host.opens);
    var apps := Opens(s.tried, p);
    if s.winner.Some? {
      assert forall i :: 0 <= i < |apps| - 1 ==> !Launched(host, apps[i]);
    } else {
      var l := Resolve(cands, p, host);
      assert l.attempts == apps + [ToolboxCli(p)];
      forall i | 0 <= i < |l.attempts| - 1 ensures !Launched(host, l.attempts[i]) {
        assert l.attempts[i] == OpenWith(s.tried[i], p);
      }
    }
  }

  /**
   * For any editor name the request has that shape, and an unsupported name
   * launches nothing.
   */
  lemma OpenInIdeSound(path: string, ide: string, host: Host)
    ensures Sound(host, OpenInIde(path, ide, host))
    ensures OpenInIde(path, ide, host).attempts == [] <==> Dispatch(ide).Failure?
  {
    if Dispatch(ide) == Success(IntelliJ) {
      IntelliJSound(host.normalize(path), host);
    }
  }

  /**
   * Dispatch routes: `vscode` and `vscodium` make one launch of their
   * application on the normalized path, `intellij` runs the IntelliJ
   * resolution on it, anything else fails with the unsupported-IDE message.
   */
  lemma OpenInIdeRoutes(path: string, ide: string, host: Host)
    ensures Text.Lower(ide) == "vscode" ==>
      OpenInIde(path, ide, host).attempts == [OpenWith("Visual Studio Code", host.normalize(path))]
    ensures Text.Lower(ide) == "vscodium" ==>
      OpenInIde(path, ide, host).attempts == [OpenWith("VSCodium", host.normalize(path))]
    ensures Text.Lower(ide) == "intellij" ==>
      OpenInIde(path, ide, host) == OpenInIntellij(host.normalize(path), host)
    ensures Text.Lower(ide) !in ["vscode", "vscodium", "intellij"] ==>
      OpenInIde(path, ide, host) == Launch([], Failure(Unsupported("Unsupported IDE: " + ide)))
  {
  }
}
