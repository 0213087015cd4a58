/** How the Webpack configuration helper derives the build mode, the module to
    build, the public paths, the output directory and the version files from
    the environment. URL parsing, the configuration literal, loaders and the
    tunnel process are not modelled: a parsed URL is given as its parts, and
    the URL a started tunnel reports is a parameter. */
module WebpackHelper {
  import opened Common
  import opened Strings
  import Snapshot

  // ---- validUrl ----

  /** The parts of a URL that WHATWG URL parsing produced. */
  datatype UrlParts = UrlParts(protocol: string, hostname: string, port: string,
                               pathname: string, search: string, hash: string)

  /** An environment variable holding a URL: its raw text and, when the text
      parses as a URL, its parts (None when the URL constructor throws). */
  datatype UrlInput = UrlInput(text: string, parsed: Option<UrlParts>)

  /** What `validUrl` returns: a string, or `false` for an unparseable URL. */
  datatype UrlValue = Href(href: string) | NotAUrl

  predicate Truthy(u: UrlValue)
  {
    u.Href? && u.href != ""
  }

  /** How the value prints inside a template literal. */
  function Text(u: UrlValue): string
  {
    match u
    case Href(h) => h
    case NotAUrl => "false"
  }

  /** protocol + `//` + hostname + pathname: port, query and fragment dropped. */
  function Recombined(p: UrlParts): string
  {
    p.protocol + "//" + p.hostname + p.pathname
  }

  /** `validUrl`: an empty variable gives `''`, an unparseable one `false`,
      and a URL its recombined href with at most one trailing `/` dropped. */
  function ValidUrl(u: UrlInput): (r: UrlValue)
    ensures u.text == "" ==> r == Href("")
    ensures u.text != "" && u.parsed.None? ==> r == NotAUrl
    ensures u.text != "" && u.parsed.Some? ==>
              var full := Recombined(u.parsed.value);
              && r.Href?
              && StartsWith(full, r.href)
              && (|r.href| == |full| - 1 <==> EndsWith(full, "/"))
              && (|r.href| == |full| <==> !EndsWith(full, "/"))
  {
    if u.text == "" then Href("")
    else match u.parsed
      case None => NotAUrl
      case Some(p) =>
        var href := Recombined(p);
        if EndsWith(href, "/") then Href(href[..|href| - 1]) else Href(href)
  }

  /** The port, query and fragment of a URL never reach the result. */
  lemma ValidUrlIgnoresPortQueryFragment(u: UrlInput, v: UrlInput)
    requires u.text != "" && v.text != ""
    requires u.parsed.Some? && v.parsed.Some?
    requires u.parsed.value.protocol == v.parsed.value.protocol
    requires u.parsed.value.hostname == v.parsed.value.hostname
    requires u.parsed.value.pathname == v.parsed.value.pathname
    ensures ValidUrl(u) == ValidUrl(v)
  {
  }

  // ---- Mode ----

  const Production := "production"
  const Development := "development"

  /** The build mode: an explicit mode is kept; otherwise a Cloudflare build
      with a branch is production on `main`/`master` and development on any
      other branch; otherwise production. */
  function DeriveMode(argvMode: string, cfPagesUrl: UrlValue, cfPagesBranch: string): (m: string)
    ensures m != ""
    ensures argvMode != "" ==> m == argvMode
    ensures argvMode == "" ==> m == Production || m == Development
    ensures argvMode == "" && Truthy(cfPagesUrl) && cfPagesBranch != "" ==>
              (m == Production <==> cfPagesBranch == "main" || cfPagesBranch == "master")
    ensures argvMode == "" && !(Truthy(cfPagesUrl) && cfPagesBranch != "") ==> m == Production
  {
    var mode :=
      if Truthy(cfPagesUrl) && argvMode == "" && cfPagesBranch != "" then
        if cfPagesBranch == "main" || cfPagesBranch == "master" then Production else Development
      else argvMode;
    if mode == "" then Production else mode
  }

  // ---- Module ----

  predicate IsModuleCandidate(d: Snapshot.Dirent)
  {
    d.isDir && d.name != "utils"
  }

  /** The first directory of `src` other than `utils`, when no module is named. */
  function FirstModule(src: seq<Snapshot.Dirent>): (r: Option<string>)
    ensures r.None? <==> forall i :: 0 <= i < |src| ==> !IsModuleCandidate(src[i])
    ensures r.Some? ==> exists i :: 0 <= i < |src| && IsModuleCandidate(src[i]) && src[i].name == r.value
                                    && forall j :: 0 <= j < i ==> !IsModuleCandidate(src[j])
    decreases |src|
  {
    if |src| == 0 then None
    else if IsModuleCandidate(src[0]) then Some(src[0].name)
    else
      var r := FirstModule(src[1..]);
      assert forall i :: 1 <= i < |src| ==> src[i] == src[1..][i - 1];
      if r.Some? then
        var k :| 0 <= k < |src[1..]| && IsModuleCandidate(src[1..][k]) && src[1..][k].name == r.value
                 && forall j :: 0 <= j < k ==> !IsModuleCandidate(src[1..][j]);
        assert IsModuleCandidate(src[k + 1]) && src[k + 1].name == r.value;
        assert forall j :: 0 <= j < k + 1 ==> !IsModuleCandidate(src[j]);
        r
      else r
  }

  // ---- Lifecycle switch ----

  datatype Dest = Dist | BuildDev

  /** The directory under the project root a destination names. */
  function DestDir(d: Dest): string
  {
    match d
    case Dist => "dist"
    case BuildDev => "build_dev"
  }

  /** The public paths and destination the lifecycle switch leaves set;
      None where the switch leaves a variable undefined. */
  datatype Paths = Paths(dev: Option<string>, prod: Option<string>, dest: Option<Dest>)

  datatype Error =
    | NoPublicUrl
    | MissingTunnel
    | BuildDevOutsideCloudflare
    | ModuleUndefined
    | ModuleNotFound
    | NoDestination

  /** `<base>/<module>/<uuid>/`. */
  function PathFor(base: string, moduleName: string, uuid: string): (p: string)
    ensures EndsWith(p, "/" + moduleName + "/" + uuid + "/")
    ensures StartsWith(p, base)
  {
    assert base + "/" + moduleName + "/" + uuid + "/" == base + ("/" + moduleName + "/" + uuid + "/");
    base + "/" + moduleName + "/" + uuid + "/"
  }

  const LocalServer := "http://localhost:3005"

  predicate IsBuildDevEvent(event: string)
  {
    event == "watch:tunnel" || event == "watch:local"
    || event == "build:prod-copy" || event == "build:prod-copy-commit"
  }

  predicate IsDistEvent(event: string)
  {
    event == "build" || event == "build:dev" || event == "build:prod" || event == "build:prod-commit"
  }

  /** The `npm_lifecycle_event` switch. `module` and `tunnel` are the texts
      the template literals interpolate. */
  function LifecyclePaths(event: string, mode: string, cf: UrlValue, pub: UrlValue,
                          tunnel: string, moduleName: string, uuid: string): (r: Result<Paths, Error>)
    ensures r.Err? <==> event == "build:dev" && !Truthy(cf)
    ensures r.Err? ==> r.error == BuildDevOutsideCloudflare
    ensures r.Ok? ==> (r.value.dest == Some(Dist) <==> IsDistEvent(event))
    ensures r.Ok? ==> (r.value.dest == Some(BuildDev) <==> IsBuildDevEvent(event))
    ensures !IsDistEvent(event) && !IsBuildDevEvent(event) ==> r == Ok(Paths(None, None, None))
    ensures r.Ok? && r.value.dev.Some? ==> EndsWith(r.value.dev.value, "/" + moduleName + "/" + uuid + "/")
    ensures r.Ok? && r.value.prod.Some? ==> EndsWith(r.value.prod.value, "/" + moduleName + "/" + uuid + "/")
    // for `build` outside development and for `build:prod`, Cloudflare wins over PUBLIC_URL
    ensures event == "build:prod" || (event == "build" && mode != Development) ==>
              r.Ok? && r.value.prod == Some(PathFor(if Truthy(cf) then Text(cf) else Text(pub), moduleName, uuid))
    // the commit and copy builds always use PUBLIC_URL
    ensures event == "build:prod-commit" || event == "build:prod-copy" || event == "build:prod-copy-commit" ==>
              r.Ok? && r.value.prod == Some(PathFor(Text(pub), moduleName, uuid)) && r.value.dev.None?
    ensures event == "build" && mode == Development ==>
              r.Ok? && r.value.prod.None? && (r.value.dev.Some? <==> Truthy(cf))
    ensures event == "watch:tunnel" ==> r.Ok? && r.value.dev == Some(PathFor(tunnel, moduleName, uuid))
    ensures event == "watch:local" ==> r.Ok? && r.value.dev == Some(PathFor(LocalServer, moduleName, uuid))
  {
    var cfPath := PathFor(Text(cf), moduleName, uuid);
    var pubPath := PathFor(Text(pub), moduleName, uuid);
    if event == "build" then
      if mode == Development then
        Ok(Paths(if Truthy(cf) then Some(cfPath) else None, None, Some(Dist)))
      else Ok(Paths(None, Some(if Truthy(cf) then cfPath else pubPath), Some(Dist)))
    else if event == "build:dev" then
      if Truthy(cf) then Ok(Paths(Some(cfPath), None, Some(Dist)))
      else Err(BuildDevOutsideCloudflare)
    else if event == "watch:tunnel" then Ok(Paths(Some(PathFor(tunnel, moduleName, uuid)), None, Some(BuildDev)))
    else if event == "watch:local" then Ok(Paths(Some(PathFor(LocalServer, moduleName, uuid)), None, Some(BuildDev)))
    else if event == "build:prod" then Ok(Paths(None, Some(if Truthy(cf) then cfPath else pubPath), Some(Dist)))
    else if event == "build:prod-commit" then Ok(Paths(None, Some(pubPath), Some(Dist)))
    else if event == "build:prod-copy" || event == "build:prod-copy-commit" then
      Ok(Paths(None, Some(pubPath), Some(BuildDev)))
    else Ok(Paths(None, None, None))
  }

  // ---- The whole derivation ----

  /** The inputs the helper reads: argv, the environment, the listing of
      `src` and the build id. Unset variables are `""`, except `TUNNEL_URL`,
      whose raw text is interpolated when no tunnel is requested. */
  datatype Env = Env(
    argvMode: string,
    publicUrl: UrlInput,
    cfPagesUrl: UrlInput,
    cfPagesBranch: string,
    lifecycleEvent: string,
    targetCollection: string,
    remoteType: string,
    tunnelFlag: bool,
    localFlag: bool,
    tunnelUrl: Option<UrlInput>,
    createdTunnel: string,
    srcEntries: seq<Snapshot.Dirent>,
    uuid: string)

  /** Which version record a build writes: the local registry entry
      (`build_dev/remoteRegistry.json`) or `version.json` and
      `latest_version.txt` in the destination. */
  datatype VersionWrite =
    | RegistryEntry(remoteName: string, remoteEntry: string)
    | VersionFiles(dest: Dest, moduleName: string, uuid: string)

  datatype BuildConfig = BuildConfig(
    mode: string,
    moduleName: string,
    publicPath: Option<string>,
    dest: Dest,
    outputPath: seq<string>,
    exposedWidgets: string,
    federationName: string,
    versionWrite: VersionWrite)

  /** The tunnel URL the switch interpolates: with a tunnel requested, the
      validated `TUNNEL_URL` or the URL of a newly started tunnel, which must
      be truthy; otherwise the raw variable. */
  function TunnelText(e: Env): (r: Result<string, Error>)
    ensures r.Err? ==> e.tunnelFlag && r.error == MissingTunnel
    ensures e.tunnelFlag && r.Ok? ==> r.value != ""
    ensures e.tunnelFlag && e.tunnelUrl.Some? && e.tunnelUrl.value.text != "" ==>
              (r.Ok? <==> Truthy(ValidUrl(e.tunnelUrl.value)))
              && (r.Ok? ==> r.value == ValidUrl(e.tunnelUrl.value).href)
    ensures e.tunnelFlag && !(e.tunnelUrl.Some? && e.tunnelUrl.value.text != "") ==>
              (r.Ok? <==> e.createdTunnel != "") && (r.Ok? ==> r.value == e.createdTunnel)
    ensures !e.tunnelFlag ==> r == Ok(if e.tunnelUrl.Some? then e.tunnelUrl.value.text else "undefined")
  {
    if e.tunnelFlag then
      var t := if e.tunnelUrl.Some? && e.tunnelUrl.value.text != "" then ValidUrl(e.tunnelUrl.value)
               else Href(e.createdTunnel);
      if Truthy(t) then Ok(Text(t)) else Err(MissingTunnel)
    else Ok(if e.tunnelUrl.Some? then e.tunnelUrl.value.text else "undefined")
  }

  function ModuleOf(e: Env): Option<string>
  {
    if e.targetCollection != "" then Some(e.targetCollection) else FirstModule(e.srcEntries)
  }

  /** Production mode with neither a Cloudflare URL nor a PUBLIC_URL. */
  predicate MissingPublicUrl(e: Env)
  {
    && DeriveMode(e.argvMode, ValidUrl(e.cfPagesUrl), e.cfPagesBranch) == Production
    && !Truthy(ValidUrl(e.cfPagesUrl))
    && !Truthy(ValidUrl(e.publicUrl))
  }

  /** `build:dev` outside Cloudflare. */
  predicate BuildDevOutsideCf(e: Env)
  {
    e.lifecycleEvent == "build:dev" && !Truthy(ValidUrl(e.cfPagesUrl))
  }

  /** An event the lifecycle switch has a case for. */
  predicate KnownEvent(event: string)
  {
    IsDistEvent(event) || IsBuildDevEvent(event)
  }

  /** The module is set and `find` over the names in `src` returns it (an
      empty name is found but falsy). */
  predicate ModuleListed(e: Env)
  {
    ModuleOf(e).Some? && ModuleOf(e).value != "" && ModuleOf(e).value in Snapshot.Names(e.srcEntries)
  }

  /** The helper's main function, from the environment to the configuration
      values it returns, or the first error it throws: no public URL in
      production, then a missing tunnel, then `build:dev` outside
      Cloudflare, then `path.resolve` of an undefined module inside a
      known case of the switch, then the module existence check, then
      `path.resolve` of the undefined destination of an unknown event. */
  function DeriveConfig(e: Env): (r: Result<BuildConfig, Error>)
    ensures r.Ok? <==> && !MissingPublicUrl(e) && TunnelText(e).Ok? && !BuildDevOutsideCf(e)
                       && ModuleListed(e) && KnownEvent(e.lifecycleEvent)
    ensures MissingPublicUrl(e) ==> r == Err(NoPublicUrl)
    ensures !MissingPublicUrl(e) && TunnelText(e).Err? ==> r == Err(MissingTunnel)
    ensures !MissingPublicUrl(e) && TunnelText(e).Ok? && BuildDevOutsideCf(e) ==> r == Err(BuildDevOutsideCloudflare)
    ensures (!MissingPublicUrl(e) && TunnelText(e).Ok? && !BuildDevOutsideCf(e)
             && ModuleOf(e).None? && KnownEvent(e.lifecycleEvent)) ==> r == Err(ModuleUndefined)
    ensures (!MissingPublicUrl(e) && TunnelText(e).Ok? && !BuildDevOutsideCf(e)
             && !(ModuleOf(e).None? && KnownEvent(e.lifecycleEvent)) && !ModuleListed(e)) ==> r == Err(ModuleNotFound)
    ensures !MissingPublicUrl(e) && TunnelText(e).Ok? && ModuleListed(e) && !KnownEvent(e.lifecycleEvent) ==>
              r == Err(NoDestination)
    ensures r.Ok? ==> r.value.mode == DeriveMode(e.argvMode, ValidUrl(e.cfPagesUrl), e.cfPagesBranch)
    ensures r.Ok? ==> r.value.moduleName == ModuleOf(e).value && r.value.moduleName in Snapshot.Names(e.srcEntries)
    ensures r.Ok? ==> (r.value.dest == BuildDev <==> IsBuildDevEvent(e.lifecycleEvent))
    ensures r.Ok? ==> r.value.outputPath == [DestDir(r.value.dest), r.value.moduleName, e.uuid]
    ensures r.Ok? && r.value.publicPath.Some? ==>
              EndsWith(r.value.publicPath.value, "/" + r.value.moduleName + "/" + e.uuid + "/")
    ensures r.Ok? ==> (r.value.versionWrite.RegistryEntry? <==> r.value.mode == Development && e.localFlag)
    ensures r.Ok? && r.value.versionWrite.VersionFiles? ==>
              r.value.versionWrite == VersionFiles(r.value.dest, r.value.moduleName, e.uuid)
  {
    var pub := ValidUrl(e.publicUrl);
    var cf := ValidUrl(e.cfPagesUrl);
    var mode := DeriveMode(e.argvMode, cf, e.cfPagesBranch);
    var moduleName := ModuleOf(e);
    if mode == Production && !Truthy(cf) && !Truthy(pub) then Err(NoPublicUrl)
    else match TunnelText(e)
      case Err(err) => Err(err)
      case Ok(tunnel) =>
        match LifecyclePaths(e.lifecycleEvent, mode, cf, pub, tunnel, OrElse(moduleName, "undefined"), e.uuid)
        case Err(err) => Err(err)
        case Ok(paths) =>
          if moduleName.None? && paths.dest.Some? then Err(ModuleUndefined)
          else if moduleName.None? || moduleName.value == "" || moduleName.value !in Snapshot.Names(e.srcEntries) then
            Err(ModuleNotFound)
          else if paths.dest.None? then Err(NoDestination)
          else
            var publicPath := if mode == Development then paths.dev else paths.prod;
            var name := if e.remoteType != "" then e.remoteType else "WebsiteRemote";
            var write :=
              if mode == Development && e.localFlag then
                RegistryEntry(name, OrElse(paths.dev, "undefined") + "remoteEntry.js")
              else VersionFiles(paths.dest.value, moduleName.value, e.uuid);
            Ok(BuildConfig(mode, moduleName.value, publicPath, paths.dest.value,
                           [DestDir(paths.dest.value), moduleName.value, e.uuid],
                           "../src/" + moduleName.value, name, write))
  }

  /** The public path a build uses is the development path in development
      mode and the production path in every other mode. */
  lemma PublicPathFollowsMode(e: Env)
    requires DeriveConfig(e).Ok?
    ensures var c := DeriveConfig(e).value;
            var cf := ValidUrl(e.cfPagesUrl);
            var tunnel := TunnelText(e);
            && tunnel.Ok?
            && var paths := LifecyclePaths(e.lifecycleEvent, c.mode, cf, ValidUrl(e.publicUrl),
                                           tunnel.value, c.moduleName, e.uuid);
               paths.Ok? && c.publicPath == (if c.mode == Development then paths.value.dev else paths.value.prod)
  {
  }

  /** When no module is named, the module built is the first candidate
      directory of `src`, and the existence check cannot fail. */
  lemma DefaultModuleExists(e: Env)
    requires e.targetCollection == ""
    requires exists i :: 0 <= i < |e.srcEntries| && IsModuleCandidate(e.srcEntries[i])
    ensures ModuleOf(e).Some? && ModuleOf(e).value in Snapshot.Names(e.srcEntries)
  {
    var m := FirstModule(e.srcEntries);
    var i :| 0 <= i < |e.srcEntries| && IsModuleCandidate(e.srcEntries[i]) && e.srcEntries[i].name == m.value;
    assert Snapshot.Names(e.srcEntries)[i] == m.value;
  }
}
