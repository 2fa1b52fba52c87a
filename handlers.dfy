/**
 * The internal-command dispatcher (commandFinder/handlers.py): resolving
 * a query to a command through aliases and command names, and the state
 * updates of `setip`, `seturl` and `refresh config`. Address parsing, DNS
 * and the HTTP reachability probe are answers of the environment.
 */
module Handlers {
  import opened Wrappers
  import opened Chars
  import opened Strings
  import opened Session
  import opened Sorting
  import Services

  datatype Command =
    | Help | Clear | ListTools | ListCategories | Exit
    | SetIp | SetUrl | Refresh | Edit | GtfSearch
    | AddCategories | AddTools | DeleteCategory | DeleteTool

  /** The `aliases` table. */
  function AliasOf(s: string): (r: Option<Command>)
  {
    match s
    case "h" => Some(Help)
    case "lt" => Some(ListTools)
    case "lc" => Some(ListCategories)
    case "c" => Some(Clear)
    case "q" => Some(Exit)
    case "si" => Some(SetIp)
    case "su" => Some(SetUrl)
    case "r" => Some(Refresh)
    case "e" => Some(Edit)
    case "gtf" => Some(GtfSearch)
    case "ac" => Some(AddCategories)
    case "at" => Some(AddTools)
    case "dc" => Some(DeleteCategory)
    case "dt" => Some(DeleteTool)
    case _ => None
  }

  /** The `commands` table: each command under its own name. */
  function CommandNamed(s: string): (r: Option<Command>)
  {
    match s
    case "help" => Some(Help)
    case "list tools" => Some(ListTools)
    case "list categories" => Some(ListCategories)
    case "clear" => Some(Clear)
    case "exit" => Some(Exit)
    case "setip" => Some(SetIp)
    case "seturl" => Some(SetUrl)
    case "refresh" => Some(Refresh)
    case "edit" => Some(Edit)
    case "gtfsearch" => Some(GtfSearch)
    case "add categories" => Some(AddCategories)
    case "add tools" => Some(AddTools)
    case "delete category" => Some(DeleteCategory)
    case "delete tool" => Some(DeleteTool)
    case _ => None
  }

  /** The name under which a command is listed in `commands`. */
  function NameOf(c: Command): (s: string)
    ensures CommandNamed(s) == Some(c)
  {
    match c
    case Help => "help"
    case Clear => "clear"
    case ListTools => "list tools"
    case ListCategories => "list categories"
    case Exit => "exit"
    case SetIp => "setip"
    case SetUrl => "seturl"
    case Refresh => "refresh"
    case Edit => "edit"
    case GtfSearch => "gtfsearch"
    case AddCategories => "add categories"
    case AddTools => "add tools"
    case DeleteCategory => "delete category"
    case DeleteTool => "delete tool"
  }

  /** `query.strip().split(maxsplit=1)`: the first word and the rest after its separating whitespace. */
  function SplitFirst(s: string): (r: (string, string))
    requires !AllSpace(s)
  {
    var t := Strip(s);
    var n := WordLen(t);
    (t[..n], LStrip(t[n..]))
  }

  /**
   * Command resolution: a lower-cased query beginning with
   * `delete category` or `dc` (then `delete tool` or `dt`) is that command
   * without arguments; otherwise the first word is looked up among the
   * aliases, then the command names, and failing both the whole query
   * among the command names. The arguments keep their case.
   */
  function ResolveCommand(query: string): (r: Option<(Command, string)>)
    requires !AllSpace(query)
  {
    var ql := Strip(LowerStr(query));
    if StartsWith(ql, "delete category") || StartsWith(ql, "dc") then Some((DeleteCategory, []))
    else if StartsWith(ql, "delete tool") || StartsWith(ql, "dt") then Some((DeleteTool, []))
    else
      var (first, args) := SplitFirst(query);
      var ci := LowerStr(first);
      match AliasOf(ci)
      case Some(c) => Some((c, args))
      case None =>
        match CommandNamed(ci)
        case Some(c) => Some((c, args))
        case None =>
          match CommandNamed(ql)
          case Some(c) => Some((c, args))
          case None => None
  }

  /** A word followed by whitespace-led arguments splits into the word and the arguments without surrounding whitespace. */
  lemma SplitFirstOfWord(w: string, rest: string)
    requires IsWord(w) && (rest == [] || IsSpace(rest[0]))
    ensures !AllSpace(w + rest)
    ensures SplitFirst(w + rest) == (w, LStrip(RStrip(rest)))
  {
    var q := w + rest;
    assert q[0] == w[0];
    assert LStrip(q) == q;
    RStripAfterWord(w, rest);
    var t := Strip(q);
    assert t == w + RStrip(rest);
    assert RStrip(rest) != [] ==> RStrip(rest)[0] == rest[0];
    WordLenOfWord(w, RStrip(rest));
    assert t[..|w|] == w && t[|w|..] == RStrip(rest);
  }

  /**
   * Unless the delete prefixes apply, a query made of a word and its
   * arguments resolves through the word: first as an alias, then as a
   * command name; the arguments lose their surrounding whitespace and
   * keep their case.
   */
  lemma ResolveWord(w: string, rest: string)
    requires IsWord(w) && (rest == [] || IsSpace(rest[0]))
    requires var ql := Strip(LowerStr(w + rest));
      !StartsWith(ql, "delete category") && !StartsWith(ql, "dc")
      && !StartsWith(ql, "delete tool") && !StartsWith(ql, "dt")
    ensures !AllSpace(w + rest)
    ensures AliasOf(LowerStr(w)).Some? ==>
      ResolveCommand(w + rest) == Some((AliasOf(LowerStr(w)).value, LStrip(RStrip(rest))))
    ensures AliasOf(LowerStr(w)).None? && CommandNamed(LowerStr(w)).Some? ==>
      ResolveCommand(w + rest) == Some((CommandNamed(LowerStr(w)).value, LStrip(RStrip(rest))))
  {
    SplitFirstOfWord(w, rest);
  }

  /**
   * The delete prefixes win over every lookup, `delete category`/`dc`
   * before `delete tool`/`dt`, and carry no arguments; so a query for a
   * tool whose name begins with `dc` or `dt` is taken as a delete command.
   */
  lemma ResolvePrecedence(query: string)
    requires !AllSpace(query)
    ensures var ql := Strip(LowerStr(query));
      (StartsWith(ql, "delete category") || StartsWith(ql, "dc") ==> ResolveCommand(query) == Some((DeleteCategory, [])))
      && (StartsWith(ql, "delete tool") || StartsWith(ql, "dt") ==> ResolveCommand(query) == Some((DeleteTool, [])))
  {
    DeletePrefixesExclusive(Strip(LowerStr(query)));
  }

  /** A delete-tool prefix is never a delete-category prefix. */
  lemma DeletePrefixesExclusive(s: string)
    ensures StartsWith(s, "delete tool") || StartsWith(s, "dt") ==>
      !StartsWith(s, "delete category") && !StartsWith(s, "dc")
  {
    if StartsWith(s, "delete tool") {
      assert s[7] == "delete tool"[7] == 't';
      assert |s| >= 2 && s[1] == 'e';
    } else if StartsWith(s, "dt") {
      assert s[1] == "dt"[1] == 't';
    }
  }

  /** `[;&|`$(){}[\]<>]` */
  predicate IsShellMeta(c: char) {
    c in ";&|`$(){}[]<>"
  }

  predicate HasShellMeta(s: string) {
    exists k :: 0 <= k < |s| && IsShellMeta(s[k])
  }

  /** One label of a domain name: `[a-zA-Z0-9]([a-zA-Z0-9-]{0,61}[a-zA-Z0-9])?` */
  predicate IsLabel(p: string) {
    1 <= |p| <= 63 && IsAsciiAlnum(p[0]) && IsAsciiAlnum(p[|p| - 1])
    && forall k :: 0 <= k < |p| ==> IsAsciiAlnum(p[k]) || p[k] == '-'
  }

  /** `[a-zA-Z]{2,}` */
  predicate IsTopLevel(p: string) {
    |p| >= 2 && forall k :: 0 <= k < |p| ==> IsAsciiLetter(p[k])
  }

  /**
   * `^([a-zA-Z0-9]([a-zA-Z0-9-]{0,61}[a-zA-Z0-9])?\.)+[a-zA-Z]{2,}$`:
   * since neither part admits a dot, the dots split the name into one or
   * more labels and a final alphabetic part.
   */
  predicate IsDomainName(s: string) {
    var ps := SplitOn(s, '.');
    |ps| >= 2 && IsTopLevel(ps[|ps| - 1]) && forall k :: 0 <= k < |ps| - 1 ==> IsLabel(ps[k])
  }

  /** The two ways `urlparse` fails to give a usable URL, or its scheme and host. */
  datatype ParsedUrl = ParsedUrl(scheme: string, netloc: string)

  datatype Probe = Reachable | SslFailure | OtherFailure

  /**
   * What the environment answers about an argument: whether it is an IP
   * address, its URL parse (`None` when `urlparse` raises ValueError),
   * whether a host is a private address, whether it resolves, the
   * result of the HEAD request, and the directory tree the tools are
   * loaded from.
   */
  datatype Environment = Environment(
    isIpAddress: string -> bool,
    parseUrl: string -> Option<ParsedUrl>,
    isPrivateIp: string -> bool,
    resolves: string -> bool,
    probe: string -> Probe,
    files: Services.FileSystem)

  datatype Outcome =
    | NotInternal            // `return False`: the query is searched instead
    | Handled                // `return True` after displaying or updating
    | ExitProgram            // `sys.exit(0)`
    | Delegated(cmd: Command, args: string)   // handed to the creator or the GTFOBins search

  /** `setip` accepts the argument as the new `$IP`. */
  predicate IpAccepted(args: string, env: Environment) {
    |args| <= 255 && args != [] && LowerStr(args) != "clear" && !HasShellMeta(args)
    && (env.isIpAddress(args) || (IsDomainName(args) && 1 < |args| <= 255))
  }

  /** `seturl` passed every check up to storing the value. */
  predicate UrlStored(args: string, env: Environment) {
    |args| <= 2048 && args != [] && LowerStr(args) != "clear" && !HasShellMeta(args)
    && env.parseUrl(args).Some?
    && var p := env.parseUrl(args).value;
    (p.scheme == "http" || p.scheme == "https") && p.netloc != [] && env.resolves(p.netloc)
  }

  /** ... and the value is also remembered among the recent URLs. */
  predicate UrlRemembered(args: string, env: Environment)
    requires UrlStored(args, env)
  {
    var p := env.parseUrl(args).value;
    env.isPrivateIp(p.netloc) || env.probe(args) != SslFailure
  }

  /** The `setip` branch. */
  method SetIpCommand(sc: SearchCommand, args: string, env: Environment)
    requires sc.Valid()
    modifies sc
    ensures sc.Valid()
    ensures unchanged(sc`urlValue, sc`recentUrls, sc`categories, sc`toolsByCategory, sc`toolToCategory, sc`toolToFile)
    ensures IpAccepted(args, env) ==> sc.ipValue == Some(args) && sc.recentIps == PushRecent(old(sc.recentIps), args)
    ensures |args| <= 255 && LowerStr(args) == "clear" ==> sc.ipValue == None && sc.recentIps == old(sc.recentIps)
    ensures !IpAccepted(args, env) && !(|args| <= 255 && LowerStr(args) == "clear") ==> unchanged(sc)
  {
    if |args| > 255 || args == [] {
      return;
    }
    if LowerStr(args) == "clear" {
      sc.ipValue := None;
      return;
    }
    if HasShellMeta(args) {
      return;
    }
    if env.isIpAddress(args) {
      sc.ipValue := Some(args);
    } else if IsDomainName(args) && 1 < |args| <= 255 {
      sc.ipValue := Some(args);
    } else {
      return;
    }
    PushRecentSpec(sc.recentIps, args);
    if args !in sc.recentIps {
      sc.recentIps := PushRecent(sc.recentIps, args);
    }
  }

  /** The `seturl` branch. */
  method SetUrlCommand(sc: SearchCommand, args: string, env: Environment)
    requires sc.Valid()
    modifies sc
    ensures sc.Valid()
    ensures unchanged(sc`ipValue, sc`recentIps, sc`categories, sc`toolsByCategory, sc`toolToCategory, sc`toolToFile)
    ensures UrlStored(args, env) ==>
      && sc.urlValue == Some(args)
      && sc.recentUrls == (if UrlRemembered(args, env) then PushRecent(old(sc.recentUrls), args) else old(sc.recentUrls))
    ensures |args| <= 2048 && LowerStr(args) == "clear" ==> sc.urlValue == None && sc.recentUrls == old(sc.recentUrls)
    ensures !UrlStored(args, env) && !(|args| <= 2048 && LowerStr(args) == "clear") ==> unchanged(sc)
  {
    if |args| > 2048 || args == [] {
      return;
    }
    if LowerStr(args) == "clear" {
      sc.urlValue := None;
      return;
    }
    if HasShellMeta(args) {
      return;
    }
    var parsed := env.parseUrl(args);
    if parsed.None? {
      return;
    }
    if parsed.value.scheme != "http" && parsed.value.scheme != "https" {
      return;
    }
    if parsed.value.netloc == [] {
      return;
    }
    var skipVerification := env.isPrivateIp(parsed.value.netloc);
    if !env.resolves(parsed.value.netloc) {
      return;
    }
    sc.urlValue := Some(args);
    if !skipVerification && env.probe(args) == SslFailure {
      return;
    }
    PushRecentSpec(sc.recentUrls, args);
    if args !in sc.recentUrls {
      sc.recentUrls := PushRecent(sc.recentUrls, args);
    }
  }

  /** The four cheat-sheet maps hold what scanning the directory tree under the root finds. */
  ghost predicate HoldsScan(sc: SearchCommand, fs: Services.FileSystem)
    reads sc
  {
    var t := Services.ScanCategories(sc.rootDir, SortStrings(fs.listDir(sc.rootDir)), fs, Services.NoTables);
    sc.categories == t.categories && sc.toolsByCategory == t.categories
    && sc.toolToFile == t.toolToFile && sc.toolToCategory == t.toolToCategory
  }

  /**
   * The `refresh` branch: `refresh config` forgets both values and both
   * recent lists; any other argument reloads the tools from the directory
   * tree, which changes nothing when the root is missing.
   */
  method RefreshCommand(sc: SearchCommand, args: string, fs: Services.FileSystem) returns (outcome: Outcome)
    requires sc.Valid()
    modifies sc
    ensures sc.Valid() && outcome == Handled
    ensures LowerStr(args) == "config" ==>
      sc.ipValue == None && sc.urlValue == None && sc.recentIps == [] && sc.recentUrls == []
      && unchanged(sc`categories, sc`toolsByCategory, sc`toolToCategory, sc`toolToFile)
    ensures LowerStr(args) != "config" ==>
      unchanged(sc`ipValue, sc`urlValue, sc`recentIps, sc`recentUrls)
      && (!fs.pathExists(sc.rootDir) ==> unchanged(sc))
      && (fs.pathExists(sc.rootDir) ==> HoldsScan(sc, fs))
  {
    if LowerStr(args) == "config" {
      sc.ipValue := None;
      sc.urlValue := None;
      sc.recentIps := [];
      sc.recentUrls := [];
    } else {
      var loaded := Services.ParseDirectoryStructure(sc, fs);
    }
    outcome := Handled;
  }

  /** `handle_internal_command` */
  method HandleInternalCommand(sc: SearchCommand, query: string, env: Environment) returns (outcome: Outcome)
    requires !AllSpace(query)
    requires sc.Valid()
    modifies sc
    ensures sc.Valid()
    ensures var r := ResolveCommand(query); r.None? || r.value.0 != Refresh || LowerStr(r.value.1) == "config" ==>
      unchanged(sc`categories, sc`toolsByCategory, sc`toolToCategory, sc`toolToFile)
    ensures ResolveCommand(query).None? <==> outcome == NotInternal
    ensures ResolveCommand(query).None? ==> unchanged(sc)
    ensures var r := ResolveCommand(query); r.Some? && r.value.0 == SetIp ==> var args := r.value.1;
      && outcome == Handled
      && unchanged(sc`urlValue, sc`recentUrls)
      && (IpAccepted(args, env) ==> sc.ipValue == Some(args) && sc.recentIps == PushRecent(old(sc.recentIps), args))
      && (|args| <= 255 && LowerStr(args) == "clear" ==> sc.ipValue == None && sc.recentIps == old(sc.recentIps))
      && (!IpAccepted(args, env) && !(|args| <= 255 && LowerStr(args) == "clear") ==> unchanged(sc))
    ensures var r := ResolveCommand(query); r.Some? && r.value.0 == SetUrl ==> var args := r.value.1;
      && outcome == Handled
      && unchanged(sc`ipValue, sc`recentIps)
      && (UrlStored(args, env) ==>
            && sc.urlValue == Some(args)
            && sc.recentUrls == (if UrlRemembered(args, env) then PushRecent(old(sc.recentUrls), args) else old(sc.recentUrls)))
      && (|args| <= 2048 && LowerStr(args) == "clear" ==> sc.urlValue == None && sc.recentUrls == old(sc.recentUrls))
      && (!UrlStored(args, env) && !(|args| <= 2048 && LowerStr(args) == "clear") ==> unchanged(sc))
    ensures var r := ResolveCommand(query); r.Some? && r.value.0 == Refresh ==> var args := r.value.1;
      && outcome == Handled
      && (LowerStr(args) == "config" ==>
            sc.ipValue == None && sc.urlValue == None && sc.recentIps == [] && sc.recentUrls == []
            && unchanged(sc`categories, sc`toolsByCategory, sc`toolToCategory, sc`toolToFile))
      && (LowerStr(args) != "config" ==>
            && unchanged(sc`ipValue, sc`urlValue, sc`recentIps, sc`recentUrls)
            && (!env.files.pathExists(sc.rootDir) ==> unchanged(sc))
            && (env.files.pathExists(sc.rootDir) ==> HoldsScan(sc, env.files)))
    ensures var r := ResolveCommand(query); r.Some? && r.value.0 !in {SetIp, SetUrl, Refresh} ==>
      unchanged(sc)
      && outcome == match r.value.0
        case Exit => ExitProgram
        case Help => Handled
        case Clear => Handled
        case ListTools => Handled
        case ListCategories => Handled
        case _ => Delegated(r.value.0, r.value.1)
  {
    var resolved := ResolveCommand(query);
    if resolved.None? {
      return NotInternal;
    }
    var command, args := resolved.value.0, resolved.value.1;
    match command
    case Help => outcome := Handled;
    case Clear => outcome := Handled;
    case ListTools => outcome := Handled;
    case ListCategories => outcome := Handled;
    case Exit => outcome := ExitProgram;
    case SetIp =>
      SetIpCommand(sc, args, env);
      outcome := Handled;
    case SetUrl =>
      SetUrlCommand(sc, args, env);
      outcome := Handled;
    case Refresh =>
      outcome := RefreshCommand(sc, args, env.files);
    case Edit => outcome := Delegated(Edit, args);
    case GtfSearch => outcome := Delegated(GtfSearch, args);
    case AddCategories => outcome := Delegated(AddCategories, args);
    case AddTools => outcome := Delegated(AddTools, args);
    case DeleteCategory => outcome := Delegated(DeleteCategory, args);
    case DeleteTool => outcome := Delegated(DeleteTool, args);
  }
}
