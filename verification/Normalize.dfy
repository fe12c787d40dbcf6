/**
 * Validation and canonical form of video nodes.
 *
 * URL byte syntax stays outside the model: a `Net` value supplies the parser, the renderer
 * and the IP-literal test. `Lawful` states what the proofs use of it, only for canonical
 * forms of URLs that the parser itself produced; `SampleNet` shows that it can be met.
 */
module Normalize {
  import opened Prelude
  import opened Strings
  import opened RichText

  datatype Invalid = InvalidDocument

  /**
   * A parsed URL. `host` is the host name without brackets and port, `path` the decoded
   * path, `escapedPath` the path as it is written, `forceQuery` a query mark with nothing
   * after it.
   */
  datatype Url = Url(scheme: string, user: bool, host: string, port: string, path: string, escapedPath: string,
                     query: string, forceQuery: bool, fragment: string)

  datatype Net = Net(parse: string -> Option<Url>, render: Url -> string, isIp: string -> bool)

  /** Only an IPv6 literal, which the source writes in brackets, has a colon in its host name. */
  predicate PlainHost(host: string) { ':' !in host }

  predicate EndsInSpace(s: string) { s != "" && IsSpace(s[|s| - 1]) }

  /** The checks on a parsed source that do not look at the kind of host. */
  predicate Acceptable(u: Url) { u.scheme == "https" && u.host != "" && !u.user }

  /** v is the canonical form of an acceptable URL that the parser produced. */
  ghost predicate IsCanonical(net: Net, v: Url) {
    exists s :: net.parse(s).Some? && Acceptable(net.parse(s).value) && v == CanonicalForm(net.parse(s).value)
  }

  /**
   * What net/url does with a canonical form: it is read back as it is if its host has no
   * colon and not at all otherwise, because it is written without brackets; and the query,
   * which comes last and is written unescaped, is the only part that can end in a space.
   */
  ghost predicate Lawful(net: Net) {
    forall v :: IsCanonical(net, v) ==> CanonicalLaws(net, v)
  }

  ghost predicate CanonicalLaws(net: Net, v: Url) {
    && (PlainHost(v.host) ==> net.parse(net.render(v)) == Some(v))
    && (!PlainHost(v.host) ==> net.parse(Trim(net.render(v))) == None)
    && (Trim(net.render(v)) == net.render(v) <==> !EndsInSpace(v.query))
    && (net.parse(Trim(net.render(v))).Some? ==> !EndsInSpace(net.parse(Trim(net.render(v))).value.query))
  }

  // ----- hosts and extensions -----

  function TrimDot(s: string): string { if HasSuffix(s, ".") then s[..|s| - 1] else s }

  function CanonicalHost(host: string): string { Lower(TrimDot(host)) }

  predicate UnsafeHost(net: Net, host: string) {
    host == "localhost" || HasSuffix(host, ".localhost") || HasSuffix(host, ".local") || net.isIp(host)
  }

  /** path.Ext over path[..n]. */
  function Ext(path: string, n: nat): string
    requires n <= |path|
  {
    if n == 0 || path[n - 1] == '/' then "" else if path[n - 1] == '.' then path[n - 1..] else Ext(path, n - 1)
  }

  function MimeOf(extension: string): Option<string> {
    if extension == ".mp4" then Some("video/mp4")
    else if extension == ".webm" then Some("video/webm")
    else if extension == ".ogv" then Some("video/ogg") else None
  }

  function EmbedProvider(host: string): Option<string> {
    if host in {"youtube.com", "www.youtube.com", "youtu.be", "youtube-nocookie.com", "www.youtube-nocookie.com"} then Some("youtube")
    else if host in {"vimeo.com", "www.vimeo.com", "player.vimeo.com"} then Some("vimeo")
    else if host in {"rutube.ru", "www.rutube.ru"} then Some("rutube") else None
  }

  // ----- one video -----

  /** The source URL if it passes every check that does not look at the host kind. */
  function ParsedSource(net: Net, attrs: map<string, Json>): Option<Url> {
    if "html" in attrs || "src" !in attrs || !attrs["src"].Str? then None else
      match net.parse(Trim(attrs["src"].s))
      case Some(u) => if Acceptable(u) then Some(u) else None
      case None => None
  }

  predicate MimeFits(attrs: map<string, Json>, expected: string) {
    "mimeType" in attrs && attrs["mimeType"].Str? ==> attrs["mimeType"].s == "" || attrs["mimeType"].s == expected
  }

  /** Provider and, for a direct file, the MIME type. */
  function Classify(attrs: map<string, Json>, host: string, path: string): Option<(string, Option<string>)> {
    match EmbedProvider(host)
    case Some(p) => Some((p, None))
    case None =>
      match MimeOf(Lower(Ext(path, |path|)))
      case Some(mime) => if MimeFits(attrs, mime) then Some(("direct", Some(mime))) else None
      case None => None
  }

  function CanonicalForm(u: Url): Url {
    u.(scheme := "https", host := CanonicalHost(u.host), port := "", fragment := "")
  }

  function SetVideo(attrs: map<string, Json>, src: string, provider: string, mime: Option<string>): map<string, Json> {
    var attrs := attrs["src" := Str(src)]["provider" := Str(provider)];
    if mime.Some? then attrs["mimeType" := Str(mime.value)] else attrs
  }

  /** normalizeVideoURL and the two assignments after it. */
  function NormalizeVideo(net: Net, attrs: map<string, Json>): Result<map<string, Json>, Invalid> {
    match ParsedSource(net, attrs)
    case None => Err(InvalidDocument)
    case Some(u) =>
      var host := CanonicalHost(u.host);
      var kind := Classify(attrs, host, u.path);
      if UnsafeHost(net, host) || kind.None? || (u.port != "" && u.port != "443") then Err(InvalidDocument)
      else Ok(SetVideo(attrs, net.render(CanonicalForm(u)), kind.value.0, kind.value.1))
  }

  // ----- the tree -----

  predicate IsVideo(node: Json) { node.Obj? && "type" in node.fields && node.fields["type"] == Str("video") }

  /** What a single node must satisfy, whatever its children. */
  predicate LocallyValid(net: Net, node: Json) {
    node.Obj? && (IsVideo(node) ==> HasAttrs(node) && NormalizeVideo(net, node.fields["attrs"].fields).Ok?)
  }

  /** The node's own fields in canonical form. */
  function NormalizedFields(net: Net, node: Json): map<string, Json>
    requires LocallyValid(net, node)
  {
    if IsVideo(node) then node.fields["attrs" := Obj(NormalizeVideo(net, node.fields["attrs"].fields).value)] else node.fields
  }

  function NormalizeNode(net: Net, node: Json): Result<Json, Invalid>
    decreases node, 1
  {
    if !LocallyValid(net, node) then Err(InvalidDocument)
    else if !HasContent(node) then Ok(Obj(NormalizedFields(net, node)))
    else
      match NormalizeAll(net, Children(node))
      case Err(e) => Err(e)
      case Ok(children) => Ok(Obj(NormalizedFields(net, node)["content" := Arr(children)]))
  }

  function NormalizeAll(net: Net, nodes: seq<Json>): Result<seq<Json>, Invalid>
    decreases nodes, 0
  {
    if nodes == [] then Ok([]) else
      match (NormalizeNode(net, nodes[0]), NormalizeAll(net, nodes[1..]))
      case (Ok(node), Ok(rest)) => Ok([node] + rest)
      case _ => Err(InvalidDocument)
  }

  // ----- failure and shape, by position in the tree -----

  // ----- which videos are accepted, and what they become -----

  /** The host as it is checked and written: without one trailing dot, in lower case. */
  ghost predicate IsHost(raw: string, host: string) {
    host == Lower(if raw != "" && raw[|raw| - 1] == '.' then raw[..|raw| - 1] else raw)
  }

  /** A host that may not serve videos: this machine, the local network, an address. */
  ghost predicate Forbidden(net: Net, host: string) {
    || host == "localhost" || net.isIp(host)
    || (|host| >= 10 && host[|host| - 10..] == ".localhost") || (|host| >= 6 && host[|host| - 6..] == ".local")
  }

  /** What the attributes must say of a direct file: nothing, or the type that its extension stands for. */
  ghost predicate DirectFile(attrs: map<string, Json>, path: string, extension: string, mime: string) {
    && HasSuffix(Lower(path), extension)
    && ("mimeType" in attrs && attrs["mimeType"].Str? ==> attrs["mimeType"].s == "" || attrs["mimeType"].s == mime)
  }

  /** Provider and MIME type of a video, from its host and path. */
  ghost predicate IsKind(attrs: map<string, Json>, host: string, path: string, provider: string, mime: Option<string>) {
    if host in {"youtube.com", "www.youtube.com", "youtu.be", "youtube-nocookie.com", "www.youtube-nocookie.com"} then provider == "youtube" && mime == None
    else if host in {"vimeo.com", "www.vimeo.com", "player.vimeo.com"} then provider == "vimeo" && mime == None
    else if host in {"rutube.ru", "www.rutube.ru"} then provider == "rutube" && mime == None
    else
      && provider == "direct"
      && (|| (mime == Some("video/mp4") && DirectFile(attrs, path, ".mp4", "video/mp4"))
          || (mime == Some("video/webm") && DirectFile(attrs, path, ".webm", "video/webm"))
          || (mime == Some("video/ogg") && DirectFile(attrs, path, ".ogv", "video/ogg")))
  }

  /** The source parses to an https URL with a host, no user and no other port, on a host that may serve videos. */
  ghost predicate AcceptedSource(net: Net, attrs: map<string, Json>, u: Url, host: string) {
    && "html" !in attrs && "src" in attrs && attrs["src"].Str? && net.parse(Trim(attrs["src"].s)) == Some(u)
    && u.scheme == "https" && u.host != "" && !u.user && (u.port == "" || u.port == "443")
    && IsHost(u.host, host) && !Forbidden(net, host)
  }

  ghost predicate AcceptedVideo(net: Net, attrs: map<string, Json>) {
    exists u, host, provider, mime :: AcceptedSource(net, attrs, u, host) && IsKind(attrs, host, u.path, provider, mime)
  }

  lemma {:induction false} ExtStops(path: string, n: nat, k: nat)
    requires k < n <= |path| && path[k] == '.' && forall j :: k < j < n ==> path[j] != '.' && path[j] != '/'
    ensures Ext(path, n) == path[k..]
  {
    if k < n - 1 { ExtStops(path, n - 1, k); }
  }

  lemma {:induction false} ExtIsSuffix(path: string, n: nat)
    requires n <= |path|
    ensures |Ext(path, n)| <= |path| && Ext(path, n) == path[|path| - |Ext(path, n)|..]
  {
    if n > 0 && path[n - 1] != '/' && path[n - 1] != '.' { ExtIsSuffix(path, n - 1); }
  }

  lemma LowerDrop(s: string, k: nat)
    requires k <= |s|
    ensures Lower(s[k..]) == Lower(s)[k..]
  {
  }

  ghost predicate IsExtension(e: string) {
    |e| >= 2 && e[0] == '.' && forall j :: 0 < j < |e| ==> e[j] != '.' && e[j] != '/'
  }

  lemma SuffixIsExtension(path: string, k: nat, e: string)
    requires IsExtension(e) && k <= |path| && Lower(path[k..]) == e
    ensures Ext(path, |path|) == path[k..]
  {
    var tail := path[k..];
    assert |tail| == |e|;
    forall j | 0 <= j < |tail| ensures LowerChar(tail[j]) == e[j] { assert Lower(tail)[j] == e[j]; }
    hide Lower;
    forall j | k < j < |path| ensures path[j] != '.' && path[j] != '/' { assert path[j] == tail[j - k]; }
    assert path[k] == tail[0];
    ExtStops(path, |path|, k);
  }

  /** The extension of a path is e exactly when the path ends in it, capitals or not. */
  lemma ExtensionExactly(path: string, e: string)
    requires IsExtension(e)
    ensures Lower(Ext(path, |path|)) == e <==> HasSuffix(Lower(path), e)
  {
    hide Lower, Ext, HasSuffix, IsExtension;
    LowerSize(path);
    if HasSuffix(Lower(path), e) {
      SuffixDrops(Lower(path), e);
      LowerDrop(path, |path| - |e|);
      SuffixIsExtension(path, |path| - |e|, e);
    }
    if Lower(Ext(path, |path|)) == e {
      ExtIsSuffix(path, |path|);
      LowerSize(Ext(path, |path|));
      LowerDrop(path, |path| - |e|);
      DropsSuffix(Lower(path), e);
    }
  }

  lemma LowerSize(s: string)
    ensures |Lower(s)| == |s|
  {
  }

  lemma SuffixDrops(s: string, e: string)
    requires HasSuffix(s, e)
    ensures |e| <= |s| && s[|s| - |e|..] == e
  {
  }

  lemma DropsSuffix(s: string, e: string)
    requires |e| <= |s| && s[|s| - |e|..] == e
    ensures HasSuffix(s, e)
  {
  }

  /** The three extensions, by their MIME types. */
  lemma MimesExactly(path: string)
    ensures MimeOf(Lower(Ext(path, |path|))) ==
      if HasSuffix(Lower(path), ".mp4") then Some("video/mp4")
      else if HasSuffix(Lower(path), ".webm") then Some("video/webm")
      else if HasSuffix(Lower(path), ".ogv") then Some("video/ogg") else None
    ensures HasSuffix(Lower(path), ".mp4") ==> !HasSuffix(Lower(path), ".webm") && !HasSuffix(Lower(path), ".ogv")
    ensures HasSuffix(Lower(path), ".webm") ==> !HasSuffix(Lower(path), ".ogv")
  {
    hide Ext, Lower, HasSuffix, IsExtension;
    ThreeExtensions();
    ExtensionExactly(path, ".mp4");
    ExtensionExactly(path, ".webm");
    ExtensionExactly(path, ".ogv");
  }

  lemma ThreeExtensions()
    ensures IsExtension(".mp4") && IsExtension(".webm") && IsExtension(".ogv")
    ensures ".mp4" != ".webm" && ".mp4" != ".ogv" && ".webm" != ".ogv"
  {
    assert ".mp4"[1] == 'm' && ".ogv"[1] == 'o' && |".webm"| == 5;
  }

  lemma KindExactly(attrs: map<string, Json>, host: string, path: string)
    ensures Classify(attrs, host, path).Some? ==> IsKind(attrs, host, path, Classify(attrs, host, path).value.0, Classify(attrs, host, path).value.1)
    ensures forall provider, mime :: IsKind(attrs, host, path, provider, mime) ==> Classify(attrs, host, path) == Some((provider, mime))
  {
    hide Ext, Lower, HasSuffix, MimeOf;
    MimesExactly(path);
  }

  lemma HostsExactly(net: Net, raw: string)
    ensures IsHost(raw, CanonicalHost(raw)) && (Forbidden(net, CanonicalHost(raw)) <==> UnsafeHost(net, CanonicalHost(raw)))
  {
    hide Lower;
  }

  /**
   * A video is accepted exactly when its source and kind are, and then its source is the
   * https URL of the checked host without port and fragment, with provider and, for a direct
   * file, MIME type to match.
   */
  lemma VideoAcceptedExactly(net: Net, attrs: map<string, Json>)
    ensures NormalizeVideo(net, attrs).Ok? <==> AcceptedVideo(net, attrs)
    ensures forall u, host, provider, mime :: AcceptedSource(net, attrs, u, host) && IsKind(attrs, host, u.path, provider, mime) ==>
      && NormalizeVideo(net, attrs).Ok?
      && var after := NormalizeVideo(net, attrs).value;
      && "src" in after && after["src"] == Str(net.render(u.(scheme := "https", host := host, port := "", fragment := "")))
      && "provider" in after && after["provider"] == Str(provider)
      && (mime.Some? ==> "mimeType" in after && after["mimeType"] == Str(mime.value))
      && (mime.None? ==> ("mimeType" in after <==> "mimeType" in attrs) && ("mimeType" in attrs ==> after["mimeType"] == attrs["mimeType"]))
  {
    forall u, host | AcceptedSource(net, attrs, u, host) ensures ParsedSource(net, attrs) == Some(u) && host == CanonicalHost(u.host) {
      HostsExactly(net, u.host);
    }
    if ParsedSource(net, attrs).Some? {
      var u := ParsedSource(net, attrs).value;
      HostsExactly(net, u.host);
      KindExactly(attrs, CanonicalHost(u.host), u.path);
      hide Forbidden, UnsafeHost, CanonicalHost, IsHost, Classify, IsKind;
      if NormalizeVideo(net, attrs).Ok? { assert AcceptedSource(net, attrs, u, CanonicalHost(u.host)); }
    }
  }

  /** What a single node must be: an object, and if it is a video, one with attributes that are accepted. */
  ghost predicate ValidNode(net: Net, node: Json) {
    && node.Obj?
    && ("type" in node.fields && node.fields["type"] == Str("video") ==>
          "attrs" in node.fields && node.fields["attrs"].Obj? && AcceptedVideo(net, node.fields["attrs"].fields))
  }

  lemma ValidNodeExactly(net: Net, node: Json)
    ensures ValidNode(net, node) <==> LocallyValid(net, node)
  {
    if IsVideo(node) && HasAttrs(node) { VideoAcceptedExactly(net, node.fields["attrs"].fields); }
    hide AcceptedVideo, NormalizeVideo;
  }

  ghost predicate ValidEverywhere(net: Net, node: Json) {
    forall path :: At(node, path).Some? ==> ValidNode(net, At(node, path).value)
  }

  lemma ValidDown(net: Net, node: Json, i: nat)
    requires ValidEverywhere(net, node) && i < |Children(node)|
    ensures ValidEverywhere(net, Children(node)[i])
  {
    forall path | At(Children(node)[i], path).Some? ensures ValidNode(net, At(Children(node)[i], path).value) {
      assert ([i] + path)[1..] == path;
      assert At(node, [i] + path) == At(Children(node)[i], path);
    }
  }

  lemma ValidUp(net: Net, node: Json)
    requires ValidNode(net, node) && forall i :: 0 <= i < |Children(node)| ==> ValidEverywhere(net, Children(node)[i])
    ensures ValidEverywhere(net, node)
  {
    forall path | At(node, path).Some? ensures ValidNode(net, At(node, path).value) {
      if path != [] { assert ValidEverywhere(net, Children(node)[path[0]]); }
    }
  }

  /** Normalisation fails exactly when some node reachable through content is invalid. */
  lemma {:induction false} FailsExactlyOnInvalidNodes(net: Net, node: Json)
    ensures NormalizeNode(net, node).Ok? <==> ValidEverywhere(net, node)
    decreases node, 1
  {
    assert At(node, []) == Some(node);
    ValidNodeExactly(net, node);
    hide ValidNode, LocallyValid;
    if ValidNode(net, node) {
      if HasContent(node) { AllFailExactly(net, Children(node)); }
      if NormalizeNode(net, node).Ok? { ValidUp(net, node); }
      if ValidEverywhere(net, node) {
        forall i | 0 <= i < |Children(node)| ensures ValidEverywhere(net, Children(node)[i]) { ValidDown(net, node, i); }
      }
    }
  }

  lemma {:induction false} AllFailExactly(net: Net, nodes: seq<Json>)
    ensures NormalizeAll(net, nodes).Ok? <==> forall i :: 0 <= i < |nodes| ==> ValidEverywhere(net, nodes[i])
    decreases nodes, 0
  {
    if nodes != [] {
      FailsExactlyOnInvalidNodes(net, nodes[0]);
      AllFailExactly(net, nodes[1..]);
      assert forall i :: 1 <= i < |nodes| ==> nodes[i] == nodes[1..][i - 1];
      if forall i :: 0 <= i < |nodes| ==> ValidEverywhere(net, nodes[i]) {
        forall i | 0 <= i < |nodes[1..]| ensures ValidEverywhere(net, nodes[1..][i]) { assert nodes[1..][i] == nodes[i + 1]; }
      }
    }
  }

  lemma {:induction false} NormalizeAllAt(net: Net, nodes: seq<Json>)
    requires NormalizeAll(net, nodes).Ok?
    ensures |NormalizeAll(net, nodes).value| == |nodes|
    ensures forall i :: 0 <= i < |nodes| ==> NormalizeNode(net, nodes[i]) == Ok(NormalizeAll(net, nodes).value[i])
  {
    if nodes != [] { NormalizeAllAt(net, nodes[1..]); }
  }

  /** The only difference normalisation may make to a single node. */
  ghost predicate OnlyVideoAttrs(before: Json, after: Json) {
    && before.Obj? && after.Obj? && after.fields.Keys == before.fields.Keys
    && (forall k :: k in before.fields && k != "attrs" && k != "content" ==> after.fields[k] == before.fields[k])
    && (HasContent(before) <==> HasContent(after)) && |Children(before)| == |Children(after)|
    && (!HasContent(before) && "content" in before.fields ==> after.fields["content"] == before.fields["content"])
    && (!IsVideo(before) && "attrs" in before.fields ==> after.fields["attrs"] == before.fields["attrs"])
    && (IsVideo(before) ==> HasAttrs(before) && HasAttrs(after) && VideoOnly(before.fields["attrs"].fields, after.fields["attrs"].fields))
  }

  lemma OwnChange(net: Net, node: Json)
    requires NormalizeNode(net, node).Ok?
    ensures OnlyVideoAttrs(node, NormalizeNode(net, node).value)
  {
    OwnFields(net, node);
    if HasContent(node) { NormalizeAllAt(net, Children(node)); }
    hide NormalizeVideo, NormalizeAll, NormalizedFields, ParsedSource;
  }

  lemma OwnFields(net: Net, node: Json)
    requires LocallyValid(net, node)
    ensures
      var fields, after := node.fields, NormalizedFields(net, node);
      && after.Keys == fields.Keys && (forall k :: k in fields && k != "attrs" ==> after[k] == fields[k])
      && (!IsVideo(node) ==> after == fields)
      && (IsVideo(node) ==> HasAttrs(node) && after["attrs"].Obj? && VideoOnly(fields["attrs"].fields, after["attrs"].fields))
  {
    if IsVideo(node) { VideoChange(net, node.fields["attrs"].fields); }
    hide NormalizeVideo;
  }

  /** The two differ in src, provider and mimeType at most. */
  ghost predicate VideoOnly(a: map<string, Json>, b: map<string, Json>) {
    a.Keys <= b.Keys <= a.Keys + {"src", "provider", "mimeType"} && forall k :: k in a && k !in {"src", "provider", "mimeType"} ==> b[k] == a[k]
  }

  lemma VideoChange(net: Net, attrs: map<string, Json>)
    requires NormalizeVideo(net, attrs).Ok?
    ensures VideoOnly(attrs, NormalizeVideo(net, attrs).value)
  {
  }

  lemma ChildOf(net: Net, node: Json, i: nat)
    requires NormalizeNode(net, node).Ok? && i < |Children(node)|
    ensures |Children(NormalizeNode(net, node).value)| == |Children(node)|
    ensures NormalizeNode(net, Children(node)[i]) == Ok(Children(NormalizeNode(net, node).value)[i])
  {
    NormalizeAllAt(net, Children(node));
  }

  /** Same tree shape, and at every position only video attributes differ. */
  lemma {:induction false} KeepsShape(net: Net, node: Json, path: seq<nat>)
    requires NormalizeNode(net, node).Ok?
    ensures At(NormalizeNode(net, node).value, path).Some? <==> At(node, path).Some?
    ensures At(node, path).Some? ==> OnlyVideoAttrs(At(node, path).value, At(NormalizeNode(net, node).value, path).value)
    decreases |path|
  {
    OwnChange(net, node);
    if path != [] && path[0] < |Children(node)| {
      ChildOf(net, node, path[0]);
      KeepsShape(net, Children(node)[path[0]], path[1..]);
    }
  }

  // ----- idempotence -----

  /** Does canonicalising this host once leave nothing for a second pass? */
  predicate StableHost(host: string) { host != "." && !HasSuffix(host, "..") }

  lemma CanonicalHostIsPlain(s: string)
    ensures PlainHost(CanonicalHost(s)) <==> PlainHost(s)
  {
    var h := CanonicalHost(s);
    assert forall i :: 0 <= i < |h| ==> h[i] == LowerChar(s[i]);
    if ':' in s {
      var i :| 0 <= i < |s| && s[i] == ':';
      assert h[i] == ':';
    }
  }

  lemma HostTwice(host: string)
    requires host != ""
    ensures StableHost(host) <==> CanonicalHost(host) != "" && CanonicalHost(CanonicalHost(host)) == CanonicalHost(host)
  {
    var once := CanonicalHost(host);
    LowerLower(TrimDot(host));
    if once != "" {
      var last := |once| - 1;
      assert once[last] == LowerChar(TrimDot(host)[last]);
      assert HasSuffix(once, ".") <==> TrimDot(host)[last] == '.';
      assert HasSuffix(host, "..") <==> HasSuffix(host, ".") && TrimDot(host)[last] == '.';
      if HasSuffix(once, ".") { assert |CanonicalHost(once)| == |once| - 1; }
    }
  }

  lemma SetVideoTwice(attrs: map<string, Json>, src: string, provider: string, mime: Option<string>)
    ensures SetVideo(SetVideo(attrs, src, provider, mime), src, provider, mime) == SetVideo(attrs, src, provider, mime)
  {
  }

  /** Does canonicalising this URL once leave nothing for a second pass? */
  predicate StableUrl(u: Url) { StableHost(u.host) && PlainHost(u.host) && !EndsInSpace(u.query) }

  /** A second pass over one video reproduces the first exactly when the source was stable. */
  lemma VideoTwice(net: Net, attrs: map<string, Json>)
    requires Lawful(net) && NormalizeVideo(net, attrs).Ok?
    ensures NormalizeVideo(net, NormalizeVideo(net, attrs).value) == Ok(NormalizeVideo(net, attrs).value)
       <==> StableUrl(ParsedSource(net, attrs).value)
  {
    var u := ParsedSource(net, attrs).value;
    var v := CanonicalForm(u);
    assert IsCanonical(net, v);
    assert CanonicalLaws(net, v);
    CanonicalHostIsPlain(u.host);
    if !PlainHost(u.host) {
      ColonIsRejected(net, attrs);
    } else if EndsInSpace(u.query) {
      SpaceIsLost(net, attrs);
    } else {
      PlainVideoTwice(net, attrs);
    }
  }

  /** The source a second pass sees. */
  lemma SecondSource(net: Net, attrs: map<string, Json>)
    requires NormalizeVideo(net, attrs).Ok?
    ensures
      var once, v := NormalizeVideo(net, attrs).value, CanonicalForm(ParsedSource(net, attrs).value);
      && "html" !in once && once["src"] == Str(net.render(v))
      && ParsedSource(net, once) ==
           match net.parse(Trim(net.render(v)))
           case Some(w) => if Acceptable(w) then Some(w) else None
           case None => None
  {
    var once := NormalizeVideo(net, attrs).value;
    assert "html" !in once && "src" in once;
  }

  lemma ColonIsRejected(net: Net, attrs: map<string, Json>)
    requires NormalizeVideo(net, attrs).Ok?
    requires
      var v := CanonicalForm(ParsedSource(net, attrs).value);
      CanonicalLaws(net, v) && !PlainHost(v.host)
    ensures NormalizeVideo(net, NormalizeVideo(net, attrs).value).Err?
  {
    SecondSource(net, attrs);
  }

  /** A query that ends in a space is written with it, and read without it. */
  lemma SpaceIsLost(net: Net, attrs: map<string, Json>)
    requires Lawful(net) && NormalizeVideo(net, attrs).Ok? && EndsInSpace(ParsedSource(net, attrs).value.query)
    ensures NormalizeVideo(net, NormalizeVideo(net, attrs).value) != Ok(NormalizeVideo(net, attrs).value)
  {
    hide Classify, UnsafeHost, EmbedProvider, MimeOf, Trim, Lower, TrimDot, HasSuffix, StableHost, IsSpace;
    SecondSource(net, attrs);
    var v := CanonicalForm(ParsedSource(net, attrs).value);
    assert IsCanonical(net, v);
    assert CanonicalLaws(net, v);
    var once := NormalizeVideo(net, attrs).value;
    if NormalizeVideo(net, once).Ok? {
      var w := ParsedSource(net, once).value;
      assert IsCanonical(net, CanonicalForm(w));
      assert CanonicalLaws(net, CanonicalForm(w));
      assert NormalizeVideo(net, once).value["src"] == Str(net.render(CanonicalForm(w)));
    }
  }

  lemma PlainVideoTwice(net: Net, attrs: map<string, Json>)
    requires Lawful(net) && NormalizeVideo(net, attrs).Ok?
    requires
      var u := ParsedSource(net, attrs).value;
      PlainHost(u.host) && !EndsInSpace(u.query) && CanonicalLaws(net, CanonicalForm(u)) && PlainHost(CanonicalForm(u).host)
    ensures NormalizeVideo(net, NormalizeVideo(net, attrs).value) == Ok(NormalizeVideo(net, attrs).value)
       <==> StableHost(ParsedSource(net, attrs).value.host)
  {
    SecondSource(net, attrs);
    var u := ParsedSource(net, attrs).value;
    var once := NormalizeVideo(net, attrs).value;
    var v := CanonicalForm(u);
    HostTwice(u.host);
    if v.host == "" {
      assert ParsedSource(net, once) == None;
    } else {
      assert ParsedSource(net, once) == Some(v);
      if StableHost(u.host) {
        assert CanonicalForm(v) == v;
        SecondClassify(attrs, v.host, v.path, net.render(v));
        SetVideoTwice(attrs, net.render(v), Classify(attrs, v.host, v.path).value.0, Classify(attrs, v.host, v.path).value.1);
      } else {
        assert CanonicalForm(v) != v;
        CanonicalHostIsPlain(v.host);
        assert IsCanonical(net, CanonicalForm(v));
        assert CanonicalLaws(net, CanonicalForm(v));
        assert net.render(CanonicalForm(v)) != net.render(v);
      }
    }
  }

  lemma SecondClassify(attrs: map<string, Json>, host: string, path: string, src: string)
    requires Classify(attrs, host, path).Some?
    ensures
      var kind := Classify(attrs, host, path).value;
      Classify(SetVideo(attrs, src, kind.0, kind.1), host, path) == Some(kind)
  {
  }

  /** The sources of the video nodes of a tree are all stable. */
  predicate EverySourceStable(net: Net, node: Json)
    decreases node, 1
  {
    && (IsVideo(node) && HasAttrs(node) && ParsedSource(net, node.fields["attrs"].fields).Some? ==>
          StableUrl(ParsedSource(net, node.fields["attrs"].fields).value))
    && (HasContent(node) ==> AllSourcesStable(net, Children(node)))
  }

  predicate AllSourcesStable(net: Net, nodes: seq<Json>)
    decreases nodes, 0
  {
    nodes == [] || (EverySourceStable(net, nodes[0]) && AllSourcesStable(net, nodes[1..]))
  }

  /**
   * Normalising twice equals normalising once exactly when every video source is stable:
   * its host is no lone dot, does not end in two dots and has no colon, and its query does
   * not end in a space.
   */
  lemma {:induction false} IdempotentExactlyOnStableSources(net: Net, node: Json)
    requires Lawful(net) && NormalizeNode(net, node).Ok?
    ensures NormalizeNode(net, NormalizeNode(net, node).value) == NormalizeNode(net, node) <==> EverySourceStable(net, node)
    decreases node, 1
  {
    var once := NormalizeNode(net, node).value;
    OwnChange(net, node);
    if IsVideo(node) { VideoTwice(net, node.fields["attrs"].fields); }
    if HasContent(node) {
      IdempotentOnAll(net, Children(node));
      assert Children(once) == NormalizeAll(net, Children(node)).value;
    }
    OwnTwice(net, node);
    hide Lawful, NormalizeVideo, ParsedSource, StableUrl;
  }

  /** The node's own share of idempotence. */
  lemma OwnTwice(net: Net, node: Json)
    requires NormalizeNode(net, node).Ok?
    ensures
      var once := NormalizeNode(net, node).value;
      NormalizeNode(net, once) == Ok(once) <==>
        && (IsVideo(node) ==>
              NormalizeVideo(net, NormalizeVideo(net, node.fields["attrs"].fields).value) == Ok(NormalizeVideo(net, node.fields["attrs"].fields).value))
        && (HasContent(node) ==> NormalizeAll(net, Children(once)) == Ok(Children(once)))
  {
    OwnChange(net, node);
    var once := NormalizeNode(net, node).value;
    if IsVideo(node) {
      assert once.fields["attrs"] == Obj(NormalizeVideo(net, node.fields["attrs"].fields).value);
    }
    FixedPoint(net, once);
  }

  /** When normalising gives the node back unchanged. */
  lemma FixedPoint(net: Net, node: Json)
    requires node.Obj? && (IsVideo(node) ==> HasAttrs(node))
    ensures NormalizeNode(net, node) == Ok(node) <==>
      && (IsVideo(node) ==> NormalizeVideo(net, node.fields["attrs"].fields) == Ok(node.fields["attrs"].fields))
      && (HasContent(node) ==> NormalizeAll(net, Children(node)) == Ok(Children(node)))
  {
    if NormalizeNode(net, node).Ok? {
      var after := NormalizeNode(net, node).value;
      if IsVideo(node) { assert after.fields["attrs"] == Obj(NormalizeVideo(net, node.fields["attrs"].fields).value); }
      if HasContent(node) { assert after.fields["content"] == Arr(NormalizeAll(net, Children(node)).value); }
      if (IsVideo(node) ==> after.fields["attrs"] == node.fields["attrs"]) && (HasContent(node) ==> after.fields["content"] == node.fields["content"]) {
        assert after.fields == node.fields;
      }
    }
  }

  lemma {:induction false} IdempotentOnAll(net: Net, nodes: seq<Json>)
    requires Lawful(net) && NormalizeAll(net, nodes).Ok?
    ensures NormalizeAll(net, NormalizeAll(net, nodes).value) == NormalizeAll(net, nodes) <==> AllSourcesStable(net, nodes)
    decreases nodes, 0
  {
    if nodes != [] {
      IdempotentExactlyOnStableSources(net, nodes[0]);
      IdempotentOnAll(net, nodes[1..]);
      var once := NormalizeAll(net, nodes).value;
      assert once[0] == NormalizeNode(net, nodes[0]).value && once[1..] == NormalizeAll(net, nodes[1..]).value;
      if NormalizeAll(net, once) == Ok(once) {
        var rest := NormalizeAll(net, once[1..]).value;
        assert once == [NormalizeNode(net, once[0]).value] + rest;
        assert once[1..] == rest;
      }
    }
  }

  // ----- sources that are not stable -----

  function DirectUrl(host: string, query: string, fragment: string): Url {
    Url("https", false, host, "", "/a.mp4", "/a.mp4", query, false, fragment)
  }

  function Video(src: string): map<string, Json> { map["src" := Str(src)] }

  /** A direct file on an unlisted host that is no local address normalises. */
  lemma DirectNormalises(net: Net, src: string, u: Url)
    requires Trim(src) == src && net.parse(src) == Some(u) && Acceptable(u) && u == DirectUrl(u.host, u.query, u.fragment)
    requires !UnsafeHost(net, CanonicalHost(u.host)) && EmbedProvider(CanonicalHost(u.host)) == None
    ensures ParsedSource(net, Video(src)) == Some(u) && NormalizeVideo(net, Video(src)).Ok?
  {
    DirectExtension();
    hide Trim, Ext, Lower, EmbedProvider, CanonicalHost;
    assert Classify(Video(src), CanonicalHost(u.host), u.path) == Some(("direct", Some("video/mp4")));
  }

  lemma DirectExtension()
    ensures Ext("/a.mp4", |"/a.mp4"|) == ".mp4" && Lower(".mp4") == ".mp4"
  {
    var path := "/a.mp4";
    assert Ext(path, 3) == ".mp4";
    assert Ext(path, 6) == Ext(path, 5) == Ext(path, 4) == ".mp4";
  }

  lemma TrimmedAlready(s: string)
    requires s != "" && !IsSpace(s[0]) && !IsSpace(s[|s| - 1])
    ensures Trim(s) == s
  {
  }

  /** A lone dot: the second pass sees no host and rejects it. */
  lemma LoneDotHostIsRejectedSecondTime(net: Net)
    requires Lawful(net) && !net.isIp("") && net.parse("https://./a.mp4") == Some(DirectUrl(".", "", ""))
    ensures
      var video := Video("https://./a.mp4");
      NormalizeVideo(net, video).Ok? && NormalizeVideo(net, NormalizeVideo(net, video).value).Err?
  {
    hide CanonicalHost, EmbedProvider, UnsafeHost, Trim, EndsInSpace, IsSpace;
    var src, u := "https://./a.mp4", DirectUrl(".", "", "");
    LoneDotStrings(net);
    DirectNormalises(net, src, u);
    assert IsCanonical(net, CanonicalForm(u));
    assert CanonicalLaws(net, CanonicalForm(u));
    SecondSource(net, Video(src));
  }

  lemma LoneDotStrings(net: Net)
    requires !net.isIp("")
    ensures Trim("https://./a.mp4") == "https://./a.mp4" && !EndsInSpace("") && PlainHost("")
    ensures CanonicalHost(".") == "" && EmbedProvider("") == None && !UnsafeHost(net, "")
  {
    TrimmedAlready("https://./a.mp4");
  }

  lemma ScopedHost(net: Net)
    requires !net.isIp("fe80::1%en0")
    ensures CanonicalHost("fe80::1%en0") == "fe80::1%en0" && EmbedProvider("fe80::1%en0") == None
    ensures !UnsafeHost(net, "fe80::1%en0") && !PlainHost("fe80::1%en0")
  {
    assert "fe80::1%en0"[4] == ':';
  }

  /** A scoped IPv6 address is no IP to the check, loses its brackets and is then no URL. */
  lemma ScopedAddressIsRejectedSecondTime(net: Net)
    requires Lawful(net) && !net.isIp("fe80::1%en0")
    requires net.parse("https://[fe80::1%25en0]/a.mp4") == Some(DirectUrl("fe80::1%en0", "", ""))
    ensures
      var video := Video("https://[fe80::1%25en0]/a.mp4");
      NormalizeVideo(net, video).Ok? && NormalizeVideo(net, NormalizeVideo(net, video).value).Err?
  {
    var src, u := "https://[fe80::1%25en0]/a.mp4", DirectUrl("fe80::1%en0", "", "");
    TrimmedAlready(src);
    ScopedHost(net);
    hide CanonicalHost, EmbedProvider, UnsafeHost, Trim, NormalizeVideo, PlainHost;
    DirectNormalises(net, src, u);
    assert IsCanonical(net, CanonicalForm(u));
    ColonIsRejected(net, Video(src));
  }

  /** A space before the fragment survives the first pass and not the second. */
  lemma SpaceBeforeFragmentIsLost(net: Net)
    requires Lawful(net) && !net.isIp("x") && net.parse("https://x/a.mp4?q= #f") == Some(DirectUrl("x", "q= ", "f"))
    ensures
      var video := Video("https://x/a.mp4?q= #f");
      NormalizeVideo(net, video).Ok? && NormalizeVideo(net, NormalizeVideo(net, video).value) != NormalizeVideo(net, video)
  {
    hide CanonicalHost, EmbedProvider, UnsafeHost, Trim, NormalizeVideo, ParsedSource, Lawful, EndsInSpace, IsSpace;
    var src, u := "https://x/a.mp4?q= #f", DirectUrl("x", "q= ", "f");
    SpaceStrings(net);
    DirectNormalises(net, src, u);
    SpaceIsLost(net, Video(src));
  }

  lemma SpaceStrings(net: Net)
    requires !net.isIp("x")
    ensures Trim("https://x/a.mp4?q= #f") == "https://x/a.mp4?q= #f" && EndsInSpace("q= ")
    ensures CanonicalHost("x") == "x" && EmbedProvider("x") == None && !UnsafeHost(net, "x")
  {
    ShortHost(net);
    hide CanonicalHost, EmbedProvider, UnsafeHost;
    var src := "https://x/a.mp4?q= #f";
    assert src[0] == 'h' && src[|src| - 1] == 'f';
    TrimmedAlready(src);
  }

  lemma ShortHost(net: Net)
    requires !net.isIp("x")
    ensures CanonicalHost("x") == "x" && EmbedProvider("x") == None && !UnsafeHost(net, "x")
  {
    hide UnsafeHost, EmbedProvider;
    NotLong(net, "x");
    var host := CanonicalHost("x");
    assert |host| == 1 && host[0] == 'x';
  }

  /** A host of up to five characters is no listed and no local name. */
  lemma NotLong(net: Net, host: string)
    requires |host| <= 5 && !net.isIp(host)
    ensures EmbedProvider(host) == None && !UnsafeHost(net, host)
  {
    assert |"youtube.com"| > 5 && |"www.youtube.com"| > 5 && |"youtu.be"| > 5 && |"youtube-nocookie.com"| > 5 && |"www.youtube-nocookie.com"| > 5;
    assert |"vimeo.com"| > 5 && |"www.vimeo.com"| > 5 && |"player.vimeo.com"| > 5 && |"rutube.ru"| > 5 && |"www.rutube.ru"| > 5;
    assert |"localhost"| > 5 && |".localhost"| > 5 && |".local"| > 5;
  }

  // ----- a net that obeys the laws -----

  function SampleParse(s: string): Option<Url> {
    if s == "https:///a.mp4" then Some(DirectUrl("", "", ""))
    else if s == "https://./a.mp4" then Some(DirectUrl(".", "", ""))
    else if s == "https://x/a.mp4?q= #f" then Some(DirectUrl("x", "q= ", "f"))
    else if s == "https://x/a.mp4?q= " then Some(DirectUrl("x", "q= ", ""))
    else if s == "https://x/a.mp4?q=" then Some(DirectUrl("x", "q=", ""))
    else if s == "https://[fe80::1%25en0]/a.mp4" then Some(DirectUrl("fe80::1%en0", "", ""))
    else None
  }

  function SampleRender(u: Url): string {
    if u.host == "" then "https:///a.mp4"
    else if u.host == "x" then "https://x/a.mp4?" + u.query
    else "https://fe80::1%25en0/a.mp4"
  }

  function SampleNet(): Net { Net(SampleParse, SampleRender, (s: string) => false) }

  lemma SampleHosts()
    ensures CanonicalHost(".") == "" && CanonicalHost("x") == "x" && CanonicalHost("fe80::1%en0") == "fe80::1%en0"
    ensures PlainHost("") && PlainHost("x") && !PlainHost("fe80::1%en0")
  {
    assert "fe80::1%en0"[4] == ':';
  }

  lemma SampleParses()
    ensures SampleParse("https:///a.mp4") == Some(DirectUrl("", "", ""))
    ensures SampleParse("https://./a.mp4") == Some(DirectUrl(".", "", ""))
    ensures SampleParse("https://x/a.mp4?q= #f") == Some(DirectUrl("x", "q= ", "f"))
    ensures SampleParse("https://x/a.mp4?q= ") == Some(DirectUrl("x", "q= ", ""))
    ensures SampleParse("https://x/a.mp4?q=") == Some(DirectUrl("x", "q=", ""))
    ensures SampleParse("https://[fe80::1%25en0]/a.mp4") == Some(DirectUrl("fe80::1%en0", "", ""))
    ensures SampleParse("https://fe80::1%25en0/a.mp4") == None
  {
    hide DirectUrl;
  }

  ghost predicate IsSampleForm(v: Url) {
    v == DirectUrl("", "", "") || v == DirectUrl("x", "q= ", "") || v == DirectUrl("x", "q=", "") || v == DirectUrl("fe80::1%en0", "", "")
  }

  /** The canonical forms of what SampleParse produces. */
  lemma SampleForms(s: string)
    requires SampleParse(s).Some? && Acceptable(SampleParse(s).value)
    ensures IsSampleForm(CanonicalForm(SampleParse(s).value))
  {
    SampleHosts();
    hide CanonicalHost;
    var u := SampleParse(s).value;
    assert u.host != "";
    assert CanonicalForm(u) == DirectUrl(CanonicalHost(u.host), u.query, "");
  }

  lemma SampleTrims()
    ensures Trim("https:///a.mp4") == "https:///a.mp4" && Trim("https://x/a.mp4?q=") == "https://x/a.mp4?q="
    ensures Trim("https://fe80::1%25en0/a.mp4") == "https://fe80::1%25en0/a.mp4"
    ensures Trim("https://x/a.mp4?q= ") == "https://x/a.mp4?q="
  {
    TrimmedAlready("https:///a.mp4");
    TrimmedAlready("https://x/a.mp4?q=");
    TrimmedAlready("https://fe80::1%25en0/a.mp4");
    var s := "https://x/a.mp4?q= ";
    assert s[..|s| - 1] == "https://x/a.mp4?q=";
    assert TrimRight(s) == TrimRight(s[..|s| - 1]);
  }

  lemma SampleRenders()
    ensures SampleRender(DirectUrl("", "", "")) == "https:///a.mp4"
    ensures SampleRender(DirectUrl("x", "q= ", "")) == "https://x/a.mp4?q= "
    ensures SampleRender(DirectUrl("x", "q=", "")) == "https://x/a.mp4?q="
    ensures SampleRender(DirectUrl("fe80::1%en0", "", "")) == "https://fe80::1%25en0/a.mp4"
  {
    assert "https://x/a.mp4?" + "q= " == "https://x/a.mp4?q= " && "https://x/a.mp4?" + "q=" == "https://x/a.mp4?q=";
  }

  lemma SampleQueries()
    ensures !EndsInSpace("") && !EndsInSpace("q=") && EndsInSpace("q= ")
    ensures "https://x/a.mp4?q= " != "https://x/a.mp4?q="
  {
    assert |"https://x/a.mp4?q= "| != |"https://x/a.mp4?q="|;
  }

  lemma SampleLaws(v: Url)
    requires IsSampleForm(v)
    ensures CanonicalLaws(SampleNet(), v)
  {
    SampleHosts();
    SampleParses();
    SampleTrims();
    SampleRenders();
    SampleQueries();
    hide Trim, PlainHost, EndsInSpace, SampleParse, SampleRender;
    assert DirectUrl("x", "q=", "").query == "q=" && DirectUrl("x", "q= ", "").query == "q= ";
  }

  /** The laws can be met by a parser that accepts all of the sources above. */
  lemma SampleNetIsLawful()
    ensures Lawful(SampleNet())
    ensures SampleNet().parse("https://./a.mp4") == Some(DirectUrl(".", "", ""))
    ensures SampleNet().parse("https://[fe80::1%25en0]/a.mp4") == Some(DirectUrl("fe80::1%en0", "", ""))
    ensures SampleNet().parse("https://x/a.mp4?q= #f") == Some(DirectUrl("x", "q= ", "f"))
  {
    SampleParses();
    hide SampleParse, CanonicalLaws, CanonicalForm, IsSampleForm, Acceptable;
    forall v | IsCanonical(SampleNet(), v) ensures CanonicalLaws(SampleNet(), v) {
      var s :| SampleParse(s).Some? && Acceptable(SampleParse(s).value) && v == CanonicalForm(SampleParse(s).value);
      SampleForms(s);
      SampleLaws(v);
    }
  }

  // ----- normalisation and file ids do not interfere -----

  lemma SetVideoCommutes(attrs: map<string, Json>, f: string -> string, src: string, provider: string, mime: Option<string>)
    ensures SetVideo(RenameAttrs(Obj(attrs), f).fields, src, provider, mime) == RenameAttrs(Obj(SetVideo(attrs, src, provider, mime)), f).fields
  {
    var a := SetVideo(RenameAttrs(Obj(attrs), f).fields, src, provider, mime);
    var b := RenameAttrs(Obj(SetVideo(attrs, src, provider, mime)), f).fields;
    assert a.Keys == b.Keys;
    forall k | k in a ensures a[k] == b[k] {}
  }

  lemma VideoCommutes(net: Net, attrs: map<string, Json>, f: string -> string)
    ensures NormalizeVideo(net, RenameAttrs(Obj(attrs), f).fields).Ok? <==> NormalizeVideo(net, attrs).Ok?
    ensures NormalizeVideo(net, attrs).Ok? ==>
      NormalizeVideo(net, RenameAttrs(Obj(attrs), f).fields).value == RenameAttrs(Obj(NormalizeVideo(net, attrs).value), f).fields
  {
    var renamed := RenameAttrs(Obj(attrs), f).fields;
    assert renamed.Keys == attrs.Keys;
    assert "src" in attrs ==> renamed["src"] == attrs["src"];
    assert "mimeType" in attrs ==> renamed["mimeType"] == attrs["mimeType"];
    assert ParsedSource(net, renamed) == ParsedSource(net, attrs);
    if ParsedSource(net, attrs).Some? {
      var u := ParsedSource(net, attrs).value;
      var kind := Classify(attrs, CanonicalHost(u.host), u.path);
      assert Classify(renamed, CanonicalHost(u.host), u.path) == kind;
      if kind.Some? { SetVideoCommutes(attrs, f, net.render(CanonicalForm(u)), kind.value.0, kind.value.1); }
    }
  }

  /** Rewriting ids and normalising videos can be done in either order. */
  lemma {:induction false} RenameCommutes(net: Net, node: Json, f: string -> string)
    ensures NormalizeNode(net, Rename(node, f)).Ok? <==> NormalizeNode(net, node).Ok?
    ensures NormalizeNode(net, node).Ok? ==>
      NormalizeNode(net, Rename(node, f)) == Ok(Rename(NormalizeNode(net, node).value, f))
    decreases node, 1
  {
    if node.Obj? {
      RenameShape(node, f);
      assert IsVideo(Rename(node, f)) <==> IsVideo(node);
      if HasAttrs(node) { VideoCommutes(net, node.fields["attrs"].fields, f); }
      if HasContent(node) { RenameAllCommutes(net, Children(node), f); }
      assert LocallyValid(net, Rename(node, f)) <==> LocallyValid(net, node);
      if NormalizeNode(net, node).Ok? { CommutesAt(net, node, f); }
    }
  }

  lemma CommutesAt(net: Net, node: Json, f: string -> string)
    requires NormalizeNode(net, node).Ok? && NormalizeNode(net, Rename(node, f)).Ok?
    requires HasContent(node) ==>
      NormalizeAll(net, RenameAll(Children(node), f)) == Ok(RenameAll(NormalizeAll(net, Children(node)).value, f))
    ensures NormalizeNode(net, Rename(node, f)).value == Rename(NormalizeNode(net, node).value, f)
  {
    hide NormalizeVideo, RenameAttrs, NormalizeAll, RenameAll;
    RenameShape(node, f);
    OwnChange(net, node);
    OwnChange(net, Rename(node, f));
    var done := NormalizeNode(net, node).value;
    RenameShape(done, f);
    var a, b := NormalizeNode(net, Rename(node, f)).value.fields, Rename(done, f).fields;
    assert a.Keys == b.Keys;
    if HasAttrs(node) { VideoCommutes(net, node.fields["attrs"].fields, f); }
    forall k | k in a ensures a[k] == b[k] {
      if k == "attrs" {
        assert Rename(node, f).fields["attrs"] == RenameAttrs(node.fields["attrs"], f);
        assert b["attrs"] == RenameAttrs(done.fields["attrs"], f);
      }
    }
  }

  lemma {:induction false} RenameAllCommutes(net: Net, nodes: seq<Json>, f: string -> string)
    ensures NormalizeAll(net, RenameAll(nodes, f)).Ok? <==> NormalizeAll(net, nodes).Ok?
    ensures NormalizeAll(net, nodes).Ok? ==>
      NormalizeAll(net, RenameAll(nodes, f)) == Ok(RenameAll(NormalizeAll(net, nodes).value, f))
    decreases nodes, 0
  {
    if nodes != [] {
      RenameCommutes(net, nodes[0], f);
      RenameAllCommutes(net, nodes[1..], f);
      assert RenameAll(nodes, f)[1..] == RenameAll(nodes[1..], f);
      if NormalizeAll(net, nodes).Ok? {
        var done := NormalizeAll(net, nodes).value;
        assert done[1..] == NormalizeAll(net, nodes[1..]).value;
      }
    }
  }

  // ----- the walk as it is written -----

  /** normalizeNode: the node's own video first, then each child in turn, stopping at the first error. */
  method NormalizeTree(net: Net, node: Json) returns (r: Result<Json, Invalid>)
    ensures r == NormalizeNode(net, node) && (r.Ok? <==> ValidEverywhere(net, node))
    decreases node, 1
  {
    FailsExactlyOnInvalidNodes(net, node);
    hide ValidEverywhere;
    if !node.Obj? { return Err(InvalidDocument); }
    var fields := node.fields;
    if IsVideo(node) {
      if !HasAttrs(node) { return Err(InvalidDocument); }
      var attrs := NormalizeVideo(net, node.fields["attrs"].fields);
      if attrs.Err? { return Err(InvalidDocument); }
      fields := fields["attrs" := Obj(attrs.value)];
    }
    if HasContent(node) {
      var children := NormalizeChildren(net, Children(node));
      if children.Err? { return Err(InvalidDocument); }
      fields := fields["content" := Arr(children.value)];
    }
    r := Ok(Obj(fields));
  }

  method NormalizeChildren(net: Net, nodes: seq<Json>) returns (r: Result<seq<Json>, Invalid>)
    ensures r == NormalizeAll(net, nodes)
    decreases nodes, 0
  {
    var out: seq<Json> := [];
    assert nodes[0..] == nodes && forall rest: seq<Json> :: [] + rest == rest;
    for i := 0 to |nodes|
      invariant NormalizeAll(net, nodes) ==
        match NormalizeAll(net, nodes[i..]) { case Ok(rest) => Ok(out + rest) case Err(e) => Err(e) }
    {
      var child := NormalizeTree(net, nodes[i]);
      assert nodes[i..][1..] == nodes[i + 1..];
      if child.Err? { return Err(InvalidDocument); }
      ghost var before := out;
      out := out + [child.value];
      assert forall rest :: before + ([child.value] + rest) == out + rest;
    }
    assert out + [] == out;
    r := Ok(out);
  }
}
