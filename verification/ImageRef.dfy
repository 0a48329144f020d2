/**
 Splitting a container image reference into registry, repository and tag or
 digest, and when its canonical print reads back as the same parts.
 */
module ImageRef {

  datatype Image = Image(registry: string, repo: string, tag: string)

  // ----- strings -----

  /** The characters a plain strip removes. */
  predicate IsSpace(c: char) {
    var n := c as int;
    || 0x09 <= n <= 0x0d || 0x1c <= n <= 0x20 || n == 0x85 || n == 0xa0 || n == 0x1680
    || 0x2000 <= n <= 0x200a || n == 0x2028 || n == 0x2029 || n == 0x202f || n == 0x205f || n == 0x3000
  }

  predicate IsQuote(c: char) {
    c == '\'' || c == '"'
  }

  function DropLeft(s: string, quotes: bool): string {
    if s != [] && Drops(s[0], quotes) then DropLeft(s[1..], quotes) else s
  }

  function DropRight(s: string, quotes: bool): string {
    if s != [] && Drops(s[|s| - 1], quotes) then DropRight(s[..|s| - 1], quotes) else s
  }

  predicate Drops(c: char, quotes: bool) {
    if quotes then IsQuote(c) else IsSpace(c)
  }

  function Strip(s: string, quotes: bool): string {
    DropRight(DropLeft(s, quotes), quotes)
  }

  /** Strip white space, then quotes. */
  function Clean(s: string): string {
    Strip(Strip(s, false), true)
  }

  /** The character does not occur. */
  predicate Free(s: string, c: char) {
    forall j :: 0 <= j < |s| ==> s[j] != c
  }

  /** The first place of a character, -1 when there is none. */
  function Find(s: string, c: char): (i: int)
    ensures -1 <= i < |s|
    ensures i >= 0 ==> s[i] == c && forall j :: 0 <= j < i ==> s[j] != c
    ensures i == -1 <==> Free(s, c)
  {
    if s == [] then -1
    else if s[0] == c then 0
    else
      var rest := Find(s[1..], c);
      assert forall j :: 0 < j < |s| ==> s[j] == s[1..][j - 1];
      if rest == -1 then -1 else rest + 1
  }

  /** The last place of a character, -1 when there is none. */
  function FindLast(s: string, c: char): (i: int)
    ensures -1 <= i < |s|
    ensures i >= 0 ==> s[i] == c && forall j :: i < j < |s| ==> s[j] != c
    ensures i == -1 <==> Free(s, c)
  {
    if s == [] then -1
    else if s[|s| - 1] == c then |s| - 1
    else FindLast(s[..|s| - 1], c)
  }

  // ----- parsing -----

  const HUB := "docker.io"

  const LOCALHOST := "localhost"

  /** A first component names a registry host if it has a dot or a colon, or is localhost. */
  predicate IsHost(s: string) {
    !Free(s, '.') || !Free(s, ':') || s == LOCALHOST
  }

  /** The part before an `@`, and what follows it. */
  function CutDigest(s: string): (string, string) {
    var at := Find(s, '@');
    if at == -1 then (s, "") else (s[..at], s[at + 1..])
  }

  predicate NamesRegistry(name: string) {
    Find(name, '/') >= 0 && IsHost(name[..Find(name, '/')])
  }

  function Registry(name: string): string {
    if NamesRegistry(name) then name[..Find(name, '/')] else HUB
  }

  function PathPart(name: string): string {
    if NamesRegistry(name) then name[Find(name, '/') + 1..] else name
  }

  /** The repository with its tag still on; a bare Docker Hub name lives under library. */
  function FullPath(name: string): string {
    if Registry(name) == HUB && Free(PathPart(name), '/') then "library/" + PathPart(name) else PathPart(name)
  }

  function SplitTag(registry: string, path: string): Image {
    var colon := FindLast(path, ':');
    if colon >= 0 then Image(registry, path[..colon], path[colon + 1..]) else Image(registry, path, "latest")
  }

  function ParseRef(text: string): Image {
    ParseCleaned(Clean(text))
  }

  function ParseCleaned(text: string): Image {
    var (name, digest) := CutDigest(text);
    if digest != "" then Image(Registry(name), FullPath(name), digest)
    else SplitTag(Registry(name), FullPath(name))
  }

  /** Registry and repository, and the tag or digest after a separator. */
  function PrintWith(i: Image, sep: string): string {
    i.registry + ("/" + (i.repo + (sep + i.tag)))
  }

  /** The form the checker prints. */
  function Print(i: Image): string {
    PrintWith(i, ":")
  }

  // ----- well-formed parts round-trip -----

  /** Parts whose separators stay where the print puts them. */
  predicate Separable(i: Image) {
    && IsHost(i.registry) && Free(i.registry, '/')
    && Free(i.registry, '@') && Free(i.repo, '@') && Free(i.tag, '@') && Free(i.tag, ':')
    && (i.registry == HUB ==> !Free(i.repo, '/') || !Free(i.tag, '/'))
  }

  /** Cleaning removes nothing from the string. */
  predicate IsClean(s: string) {
    s != [] ==> !IsSpace(s[0]) && !IsQuote(s[0]) && !IsSpace(s[|s| - 1]) && !IsQuote(s[|s| - 1])
  }

  lemma CleanIsIdentity(s: string)
    requires IsClean(s)
    ensures Clean(s) == s
  {
  }

  lemma FreeConcat(a: string, b: string, c: char)
    ensures Free(a + b, c) <==> Free(a, c) && Free(b, c)
  {
    var s := a + b;
    if Free(s, c) {
      forall j | 0 <= j < |a| ensures a[j] != c {
        assert s[j] == a[j];
      }
      forall j | 0 <= j < |b| ensures b[j] != c {
        assert s[|a| + j] == b[j];
      }
    }
  }

  /** A name that starts with a host and a slash splits there. */
  lemma HostSplits(host: string, path: string)
    requires IsHost(host) && Free(host, '/')
    ensures var name := host + ("/" + path); NamesRegistry(name) && Registry(name) == host && PathPart(name) == path
  {
    var name := host + ("/" + path);
    assert name[|host|] == '/' && forall j :: 0 <= j < |host| ==> name[j] == host[j];
    assert Find(name, '/') == |host|;
    assert name[..|host|] == host && name[|host| + 1..] == path;
  }

  lemma TagSplits(registry: string, repo: string, tag: string)
    requires Free(tag, ':')
    ensures SplitTag(registry, repo + (":" + tag)) == Image(registry, repo, tag)
  {
    var path := repo + (":" + tag);
    assert path[|repo|] == ':' && forall j :: |repo| < j < |path| ==> path[j] == tag[j - |repo| - 1];
    assert FindLast(path, ':') == |repo|;
    assert path[..|repo|] == repo && path[|repo| + 1..] == tag;
  }

  lemma PrintHasNoAt(i: Image)
    requires Separable(i)
    ensures Free(Print(i), '@')
  {
    FreeConcat(":", i.tag, '@');
    FreeConcat(i.repo, ":" + i.tag, '@');
    FreeConcat("/", i.repo + (":" + i.tag), '@');
    FreeConcat(i.registry, "/" + (i.repo + (":" + i.tag)), '@');
  }

  /** What is left of a name once the digest is off. */
  function ParseName(name: string): Image {
    SplitTag(Registry(name), FullPath(name))
  }

  /** Once cleaned, the print of separable parts is read back as those parts. */
  lemma SeparableReadsBack(i: Image)
    requires Separable(i)
    ensures ParseName(Print(i)) == i
  {
    var path := i.repo + (":" + i.tag);
    HostSplits(i.registry, path);
    FreeConcat(":", i.tag, '/');
    FreeConcat(i.repo, ":" + i.tag, '/');
    TagSplits(i.registry, i.repo, i.tag);
  }

  lemma DigestFreeParse(text: string)
    requires Free(Clean(text), '@')
    ensures ParseRef(text) == ParseName(Clean(text))
  {
  }

  /** Printing well-formed parts and parsing the print gives the parts back. */
  lemma PrintParses(i: Image)
    requires Separable(i) && IsClean(Print(i))
    ensures ParseRef(Print(i)) == i
  {
    CleanIsIdentity(Print(i));
    PrintHasNoAt(i);
    DigestFreeParse(Print(i));
    SeparableReadsBack(i);
  }

  // ----- what a reference means, by its text -----

  lemma FreeOrIn(s: string, c: char)
    ensures Free(s, c) <==> c !in s
  {
  }

  lemma InConcat(a: string, b: string, c: char)
    ensures c in a + b <==> c in a || c in b
  {
  }

  /** A first component is a registry when it has a dot or a colon, or is localhost. */
  predicate RegistryText(host: string) {
    '.' in host || ':' in host || host == "localhost"
  }

  /** A short name on Docker Hub belongs to its library. */
  function InLibrary(registry: string, path: string): string {
    if registry == "docker.io" && '/' !in path then "library/" + path else path
  }

  lemma FirstSlash(host: string, path: string)
    requires '/' !in host
    ensures var name := host + ("/" + path);
            && Find(name, '/') == |host| && name[..|host|] == host && name[|host| + 1..] == path
  {
    var name := host + ("/" + path);
    assert name[|host|] == '/' && forall j :: 0 <= j < |host| ==> name[j] == host[j];
  }

  /** The registry of `host/path` is `host` if that is one; otherwise all of it is a path on Docker Hub. */
  lemma PathByText(host: string, path: string)
    requires '/' !in host
    ensures var name := host + ("/" + path);
            if RegistryText(host) then Registry(name) == host && FullPath(name) == InLibrary(host, path)
            else Registry(name) == "docker.io" && FullPath(name) == name
  {
    var name := host + ("/" + path);
    FirstSlash(host, path);
    FreeOrIn(host, '.');
    FreeOrIn(host, ':');
    FreeOrIn(path, '/');
    FreeOrIn(name, '/');
    assert name[|host|] == '/';
  }

  /** A path splits into repository and tag at its last colon; without a colon the tag is `latest`. */
  lemma TagByText(registry: string, repo: string, tag: string)
    ensures ':' !in tag ==> SplitTag(registry, repo + (":" + tag)) == Image(registry, repo, tag)
    ensures ':' !in repo ==> SplitTag(registry, repo) == Image(registry, repo, "latest")
  {
    FreeOrIn(tag, ':');
    FreeOrIn(repo, ':');
    if ':' !in tag {
      TagSplits(registry, repo, tag);
    }
  }

  lemma NoDigest(name: string)
    requires '@' !in name
    ensures ParseCleaned(name) == SplitTag(Registry(name), FullPath(name))
  {
    FreeOrIn(name, '@');
  }

  /** The library prefix goes before the repository whether or not a tag follows. */
  lemma InLibraryTagged(registry: string, repo: string, tag: string)
    ensures InLibrary(registry, repo + (":" + tag)) ==
            (if '/' in tag then repo else InLibrary(registry, repo)) + (":" + tag)
  {
    InConcat(repo, ":" + tag, '/');
    InConcat(":", tag, '/');
    assert "library/" + (repo + (":" + tag)) == ("library/" + repo) + (":" + tag);
  }

  lemma InLibraryColon(registry: string, repo: string)
    requires ':' !in repo
    ensures ':' !in InLibrary(registry, repo)
  {
    InConcat("library/", repo, ':');
  }

  lemma NoAtTagged(name: string, tag: string)
    requires '@' !in name && '@' !in tag
    ensures '@' !in name + (":" + tag)
  {
    InConcat(name, ":" + tag, '@');
    InConcat(":", tag, '@');
  }

  /** `host/repo` on a registry, in the library if it is short and the registry Docker Hub. */
  lemma RegistryUntagged(host: string, repo: string)
    requires '/' !in host && RegistryText(host) && '@' !in host + ("/" + repo) && ':' !in repo
    ensures ParseCleaned(host + ("/" + repo)) == Image(host, InLibrary(host, repo), "latest")
  {
    NoDigest(host + ("/" + repo));
    PathByText(host, repo);
    InLibraryColon(host, repo);
    TagByText(host, InLibrary(host, repo), "");
  }

  /** `host/repo:tag` on a registry. */
  lemma RegistryTagged(host: string, repo: string, tag: string)
    requires '/' !in host && RegistryText(host) && '@' !in host + ("/" + repo) && '@' !in tag && ':' !in tag
    ensures ParseCleaned(host + ("/" + (repo + (":" + tag)))) ==
            Image(host, if '/' in tag then repo else InLibrary(host, repo), tag)
  {
    var path := repo + (":" + tag);
    NoAtTagged(host + ("/" + repo), tag);
    assert host + ("/" + path) == (host + ("/" + repo)) + (":" + tag);
    NoDigest(host + ("/" + path));
    PathByText(host, path);
    InLibraryTagged(host, repo, tag);
    TagByText(host, if '/' in tag then repo else InLibrary(host, repo), tag);
  }

  /** A name whose first component is no registry is a path on Docker Hub, all of it. */
  lemma HubReference(first: string, rest: string, tag: string)
    requires '/' !in first && !RegistryText(first) && '@' !in first + ("/" + rest) && '@' !in tag && ':' !in tag
    ensures ':' !in rest ==>
              ParseCleaned(first + ("/" + rest)) == Image("docker.io", first + ("/" + rest), "latest")
    ensures ParseCleaned(first + ("/" + (rest + (":" + tag)))) == Image("docker.io", first + ("/" + rest), tag)
  {
    var name := first + ("/" + rest);
    NoAtTagged(name, tag);
    assert first + ("/" + (rest + (":" + tag))) == name + (":" + tag);
    NoDigest(name + (":" + tag));
    NoDigest(name);
    PathByText(first, rest + (":" + tag));
    PathByText(first, rest);
    InConcat("/", rest, ':');
    InConcat(first, "/" + rest, ':');
    TagByText("docker.io", name, tag);
  }

  lemma ShortByText(name: string)
    requires '/' !in name
    ensures Registry(name) == "docker.io" && FullPath(name) == InLibrary("docker.io", name)
  {
    FreeOrIn(name, '/');
  }

  /** A name without a slash is an image of the Docker Hub library. */
  lemma ShortUntagged(name: string)
    requires '/' !in name && '@' !in name && ':' !in name
    ensures ParseCleaned(name) == Image("docker.io", "library/" + name, "latest")
  {
    NoDigest(name);
    ShortByText(name);
    InLibraryColon("docker.io", name);
    TagByText("docker.io", InLibrary("docker.io", name), "");
  }

  /** And so it is with a tag. */
  lemma ShortTagged(name: string, tag: string)
    requires '/' !in name && '@' !in name && '@' !in tag && ':' !in tag && '/' !in tag
    ensures ParseCleaned(name + (":" + tag)) == Image("docker.io", "library/" + name, tag)
  {
    NoAtTagged(name, tag);
    NoSlashTagged(name, tag);
    NoDigest(name + (":" + tag));
    ShortByText(name + (":" + tag));
    InLibraryTagged("docker.io", name, tag);
    TagByText("docker.io", InLibrary("docker.io", name), tag);
  }

  lemma NoSlashTagged(name: string, tag: string)
    requires '/' !in name && '/' !in tag
    ensures '/' !in name + (":" + tag)
  {
    InConcat(name, ":" + tag, '/');
    InConcat(":", tag, '/');
  }

  // ----- what cleaning takes off, by the text -----

  lemma {:induction false} DropsAllLeft(pad: string, rest: string, quotes: bool)
    requires forall j :: 0 <= j < |pad| ==> Drops(pad[j], quotes)
    requires rest != [] ==> !Drops(rest[0], quotes)
    ensures DropLeft(pad + rest, quotes) == rest
  {
    if pad == [] {
      assert pad + rest == rest;
    } else {
      assert (pad + rest)[1..] == pad[1..] + rest && (pad + rest)[0] == pad[0];
      DropsAllLeft(pad[1..], rest, quotes);
    }
  }

  lemma {:induction false} DropsAllRight(rest: string, pad: string, quotes: bool)
    requires forall j :: 0 <= j < |pad| ==> Drops(pad[j], quotes)
    requires rest != [] ==> !Drops(rest[|rest| - 1], quotes)
    ensures DropRight(rest + pad, quotes) == rest
  {
    if pad == [] {
      assert rest + pad == rest;
    } else {
      assert (rest + pad)[..|rest + pad| - 1] == rest + pad[..|pad| - 1];
      assert (rest + pad)[|rest + pad| - 1] == pad[|pad| - 1];
      DropsAllRight(rest, pad[..|pad| - 1], quotes);
    }
  }

  lemma StripsPadding(left: string, core: string, right: string, quotes: bool)
    requires forall j :: 0 <= j < |left| ==> Drops(left[j], quotes)
    requires forall j :: 0 <= j < |right| ==> Drops(right[j], quotes)
    requires core != [] && !Drops(core[0], quotes) && !Drops(core[|core| - 1], quotes)
    ensures Strip(left + (core + right), quotes) == core
  {
    assert (core + right)[0] == core[0];
    DropsAllLeft(left, core + right, quotes);
    DropsAllRight(core, right, quotes);
  }

  /** Around a reference white space, and inside it quotes, make no difference. */
  lemma PaddingIgnored(left: string, open: string, name: string, close: string, right: string)
    requires forall j :: 0 <= j < |left| ==> IsSpace(left[j])
    requires forall j :: 0 <= j < |right| ==> IsSpace(right[j])
    requires forall j :: 0 <= j < |open| ==> open[j] == '"' || open[j] == '\''
    requires forall j :: 0 <= j < |close| ==> close[j] == '"' || close[j] == '\''
    requires name != [] && !IsQuote(name[0]) && !IsQuote(name[|name| - 1])
    requires (open == [] ==> !IsSpace(name[0])) && (close == [] ==> !IsSpace(name[|name| - 1]))
    ensures ParseRef(left + ((open + (name + close)) + right)) == ParseCleaned(name)
  {
    var core := open + (name + close);
    assert core[0] == (if open == [] then name[0] else open[0]);
    assert core[|core| - 1] == (if close == [] then name[|name| - 1] else close[|close| - 1]);
    StripsPadding(left, core, right, false);
    StripsPadding(open, name, close, true);
  }

  // ----- re-parsing a parsed reference -----

  lemma FreeSlice(s: string, lo: nat, hi: nat, c: char)
    requires lo <= hi <= |s| && Free(s, c)
    ensures Free(s[lo..hi], c)
  {
  }

  lemma HubIsHost()
    ensures IsHost(HUB) && Free(HUB, '/') && Free(HUB, '@')
  {
    assert HUB[6] == '.';
  }

  lemma RegistryIsHost(name: string)
    requires Free(name, '@')
    ensures IsHost(Registry(name)) && Free(Registry(name), '/') && Free(Registry(name), '@')
  {
    if NamesRegistry(name) {
      FreeSlice(name, 0, Find(name, '/'), '@');
    } else {
      HubIsHost();
    }
  }

  lemma PathKeepsOff(name: string)
    requires Free(name, '@')
    ensures Free(FullPath(name), '@')
    ensures Registry(name) == HUB ==> !Free(FullPath(name), '/')
  {
    if NamesRegistry(name) {
      FreeSlice(name, Find(name, '/') + 1, |name|, '@');
    }
    FreeConcat("library/", PathPart(name), '@');
    FreeConcat("library/", PathPart(name), '/');
    assert "library/"[7] == '/';
  }

  lemma TagIsSeparable(registry: string, path: string)
    requires IsHost(registry) && Free(registry, '/') && Free(registry, '@') && Free(path, '@')
    requires registry == HUB ==> !Free(path, '/')
    ensures Separable(SplitTag(registry, path))
  {
    var colon := FindLast(path, ':');
    if colon >= 0 {
      var repo, tag := path[..colon], path[colon + 1..];
      assert path == repo + (":" + tag);
      FreeConcat(":", tag, '@');
      FreeConcat(repo, ":" + tag, '@');
      FreeConcat(":", tag, '/');
      FreeConcat(repo, ":" + tag, '/');
    }
  }

  /** Whatever a digest-free name parses to is separable. */
  lemma ParsedIsSeparable(name: string)
    requires Free(name, '@')
    ensures Separable(ParseName(name))
  {
    RegistryIsHost(name);
    PathKeepsOff(name);
    TagIsSeparable(Registry(name), FullPath(name));
  }

  /** No quote is left at either end of a cleaned string. */
  lemma CleanedEnds(text: string)
    ensures Clean(text) != [] ==> !IsQuote(Clean(text)[0]) && !IsQuote(Clean(text)[|Clean(text)| - 1])
  {
    var s := Strip(text, false);
    DropLeftStops(s, true);
    DropRightStops(DropLeft(s, true), true);
  }

  lemma {:induction false} DropLeftStops(s: string, quotes: bool)
    ensures DropLeft(s, quotes) != [] ==> !Drops(DropLeft(s, quotes)[0], quotes)
    ensures |DropLeft(s, quotes)| <= |s|
    ensures DropLeft(s, quotes) == s[|s| - |DropLeft(s, quotes)|..]
  {
    if s != [] && Drops(s[0], quotes) {
      DropLeftStops(s[1..], quotes);
    }
  }

  lemma {:induction false} DropRightStops(s: string, quotes: bool)
    ensures DropRight(s, quotes) <= s
    ensures DropRight(s, quotes) != [] ==> !Drops(DropRight(s, quotes)[|DropRight(s, quotes)| - 1], quotes)
  {
    if s != [] && Drops(s[|s| - 1], quotes) {
      DropRightStops(s[..|s| - 1], quotes);
    }
  }

  /** The reference carries a tag. */
  predicate Tagged(name: string) {
    !Free(FullPath(name), ':')
  }

  /** White space that only the quotes kept in place would be stripped off the print: before a registry or after a tag. */
  predicate Exposed(name: string) {
    name != [] && ((NamesRegistry(name) && IsSpace(name[0])) || (Tagged(name) && IsSpace(name[|name| - 1])))
  }

  /** An explicit registry begins where the name does. */
  lemma RegistryStart(name: string)
    ensures Registry(name) != []
    ensures if NamesRegistry(name) then name != [] && Registry(name)[0] == name[0] else Registry(name)[0] == 'd'
  {
    if NamesRegistry(name) {
      HostNotEmpty(Registry(name));
    }
  }

  /** A path part that is not empty ends where the name does. */
  lemma PartEnd(name: string)
    requires PathPart(name) != []
    ensures name != [] && PathPart(name)[|PathPart(name)| - 1] == name[|name| - 1]
  {
  }

  /** A path ends where the name does, or where `library/` does. */
  lemma PathEnd(name: string)
    requires Tagged(name)
    ensures name != [] && FullPath(name) != [] && FullPath(name)[|FullPath(name)| - 1] == name[|name| - 1]
  {
    FreeConcat("library/", PathPart(name), ':');
    PartEnd(name);
  }

  lemma SplitTagEnd(registry: string, path: string)
    ensures var tag := SplitTag(registry, path).tag;
            if Free(path, ':') then tag == "latest"
            else path != [] && path[|path| - 1] == (if tag == "" then ':' else tag[|tag| - 1])
  {
  }

  /** An explicit tag ends where the name does. */
  lemma TagEnd(name: string)
    ensures var tag := SplitTag(Registry(name), FullPath(name)).tag;
            if Tagged(name)
            then name != [] && name[|name| - 1] == (if tag == "" then ':' else tag[|tag| - 1])
            else tag == "latest"
  {
    SplitTagEnd(Registry(name), FullPath(name));
    if Tagged(name) {
      PathEnd(name);
    }
  }

  lemma HostNotEmpty(s: string)
    requires IsHost(s)
    ensures s != []
  {
  }

  // ----- stripping a print -----

  lemma {:induction false} DropLeftOver(a: string, b: string, quotes: bool)
    requires DropLeft(a, quotes) != []
    ensures DropLeft(a + b, quotes) == DropLeft(a, quotes) + b
  {
    assert (a + b)[0] == a[0];
    if Drops(a[0], quotes) {
      assert (a + b)[1..] == a[1..] + b;
      DropLeftOver(a[1..], b, quotes);
    }
  }

  lemma {:induction false} DropRightOver(a: string, b: string, quotes: bool)
    requires a != [] && !Drops(a[|a| - 1], quotes)
    ensures DropRight(a + b, quotes) == a + DropRight(b, quotes)
  {
    if b == [] {
      assert a + b == a;
    } else if Drops(b[|b| - 1], quotes) {
      assert (a + b)[..|a + b| - 1] == a + b[..|b| - 1];
      DropRightOver(a, b[..|b| - 1], quotes);
    }
  }

  /** A host stays a host when its left end is stripped. */
  lemma {:induction false} HostSurvives(s: string, quotes: bool)
    requires IsHost(s)
    ensures IsHost(DropLeft(s, quotes)) && DropLeft(s, quotes) != []
  {
    HostNotEmpty(s);
    if Drops(s[0], quotes) {
      HostTail(s);
      HostSurvives(s[1..], quotes);
    }
  }

  lemma HostTail(s: string)
    requires IsHost(s) && s != [] && (IsSpace(s[0]) || IsQuote(s[0]))
    ensures IsHost(s[1..])
  {
    assert s == [s[0]] + s[1..];
    FreeConcat([s[0]], s[1..], '.');
    FreeConcat([s[0]], s[1..], ':');
    assert LOCALHOST[0] == 'l';
  }

  lemma StripPrint(registry: string, middle: string, tag: string, quotes: bool)
    requires DropLeft(registry, quotes) != [] && middle != [] && !Drops(middle[|middle| - 1], quotes)
    ensures Strip(registry + (middle + tag), quotes) == DropLeft(registry, quotes) + (middle + DropRight(tag, quotes))
  {
    var left, right := DropLeft(registry, quotes), DropRight(tag, quotes);
    DropLeftOver(registry, middle + tag, quotes);
    Regroup(left, middle, tag);
    assert (left + middle)[|left + middle| - 1] == middle[|middle| - 1];
    DropRightOver(left + middle, tag, quotes);
    Regroup(left, middle, right);
  }

  lemma Regroup(a: string, b: string, c: string)
    ensures a + (b + c) == (a + b) + c
  {
  }

  lemma PrintAround(i: Image, sep: string)
    ensures PrintWith(i, sep) == i.registry + (("/" + i.repo + sep) + i.tag)
  {
  }

  predicate Suffix(a: string, b: string) {
    |a| <= |b| && a == b[|b| - |a|..]
  }

  lemma SuffixTransitive(a: string, b: string, c: string)
    requires Suffix(a, b) && Suffix(b, c)
    ensures Suffix(a, c)
  {
  }

  function LeftCleaned(s: string): string {
    DropLeft(DropLeft(s, false), true)
  }

  function RightCleaned(s: string): string {
    DropRight(DropRight(s, false), true)
  }

  /** Nothing is stripped from the separator. */
  predicate Separates(sep: string) {
    sep == ":" || sep == "@"
  }

  /** One strip of a print. */
  lemma StripOnePrint(i: Image, sep: string, quotes: bool)
    requires DropLeft(i.registry, quotes) != [] && Separates(sep)
    ensures Strip(PrintWith(i, sep), quotes) ==
            PrintWith(Image(DropLeft(i.registry, quotes), i.repo, DropRight(i.tag, quotes)), sep)
  {
    var middle := "/" + i.repo + sep;
    assert middle[|middle| - 1] == sep[0];
    PrintAround(i, sep);
    StripPrint(i.registry, middle, i.tag, quotes);
    PrintAround(Image(DropLeft(i.registry, quotes), i.repo, DropRight(i.tag, quotes)), sep);
  }

  lemma CleanedRegistry(registry: string)
    requires IsHost(registry)
    ensures IsHost(LeftCleaned(registry)) && Suffix(LeftCleaned(registry), registry)
  {
    var once := DropLeft(registry, false);
    HostSurvives(registry, false);
    HostSurvives(once, true);
    DropLeftStops(registry, false);
    DropLeftStops(once, true);
    SuffixTransitive(DropLeft(once, true), once, registry);
  }

  lemma CleanedTag(tag: string)
    ensures RightCleaned(tag) <= tag
  {
    DropRightStops(tag, false);
    DropRightStops(DropRight(tag, false), true);
  }

  /** What cleaning leaves of the parts. */
  function Cleaned(i: Image): Image {
    Image(LeftCleaned(i.registry), i.repo, RightCleaned(i.tag))
  }

  /** Cleaning a print shortens its registry from the left and its tag or digest from the right, and nothing else. */
  lemma CleanPrint(i: Image, sep: string)
    requires IsHost(i.registry) && Separates(sep)
    ensures Clean(PrintWith(i, sep)) == PrintWith(Cleaned(i), sep)
    ensures IsHost(LeftCleaned(i.registry)) && Suffix(LeftCleaned(i.registry), i.registry)
    ensures RightCleaned(i.tag) <= i.tag
  {
    var once := Image(DropLeft(i.registry, false), i.repo, DropRight(i.tag, false));
    HostSurvives(i.registry, false);
    HostSurvives(once.registry, true);
    StripOnePrint(i, sep, false);
    StripOnePrint(once, sep, true);
    CleanedRegistry(i.registry);
    CleanedTag(i.tag);
  }

  lemma SuffixFree(a: string, b: string, c: char)
    requires Suffix(a, b) && Free(b, c)
    ensures Free(a, c)
  {
    FreeSlice(b, |b| - |a|, |b|, c);
  }

  /** Stripping from the right takes only white space or quotes. */
  lemma {:induction false} DropRightKeeps(s: string, quotes: bool, c: char)
    requires Free(DropRight(s, quotes), c) && !Drops(c, quotes)
    ensures Free(s, c)
  {
    if s != [] && Drops(s[|s| - 1], quotes) {
      DropRightKeeps(s[..|s| - 1], quotes, c);
      assert forall j :: 0 <= j < |s| - 1 ==> s[j] == s[..|s| - 1][j];
    }
  }

  lemma RightCleanedKeeps(s: string, c: char)
    requires !IsSpace(c) && !IsQuote(c)
    ensures Free(RightCleaned(s), c) <==> Free(s, c)
  {
    if Free(RightCleaned(s), c) {
      DropRightKeeps(DropRight(s, false), true, c);
      DropRightKeeps(s, false, c);
    } else if Free(s, c) {
      CleanedTag(s);
      PrefixFree(RightCleaned(s), s, c);
    }
  }

  lemma PrefixFree(a: string, b: string, c: char)
    requires a <= b && Free(b, c)
    ensures Free(a, c)
  {
    FreeSlice(b, 0, |a|, c);
  }

  /** The cleaned print is again the print of separable parts, or its registry is no longer the one printed. */
  lemma CleanedPrintReadsBack(i: Image)
    requires Separable(i)
    ensures var j := Cleaned(i);
            && ParseName(Print(j)).registry == j.registry
            && (j.registry == i.registry ==> ParseName(Print(j)) == j)
  {
    CleanPrint(i, ":");
    var j := Cleaned(i);
    SuffixFree(j.registry, i.registry, '/');
    SuffixFree(j.registry, i.registry, '@');
    HostSplits(j.registry, j.repo + (":" + j.tag));
    if j.registry == i.registry {
      PrefixFree(j.tag, i.tag, '@');
      PrefixFree(j.tag, i.tag, ':');
      RightCleanedKeeps(i.tag, '/');
      SeparableReadsBack(j);
    }
  }

  lemma {:induction false} CleanKeepsFree(i: Image)
    requires Separable(i)
    ensures Free(Clean(Print(i)), '@')
  {
    CleanPrint(i, ":");
    var j := Cleaned(i);
    SuffixFree(j.registry, i.registry, '@');
    PrefixFree(j.tag, i.tag, '@');
    FreeConcat(":", j.tag, '@');
    FreeConcat(j.repo, ":" + j.tag, '@');
    FreeConcat("/", j.repo + (":" + j.tag), '@');
    FreeConcat(j.registry, "/" + (j.repo + (":" + j.tag)), '@');
  }

  /** The print of separable parts reads back as them exactly when cleaning leaves registry and tag whole. */
  lemma PrintParsesExactly(i: Image)
    requires Separable(i)
    ensures ParseRef(Print(i)) == i <==> LeftCleaned(i.registry) == i.registry && RightCleaned(i.tag) == i.tag
  {
    CleanPrint(i, ":");
    CleanKeepsFree(i);
    DigestFreeParse(Print(i));
    CleanedPrintReadsBack(i);
  }

  lemma LeftCleanedSame(s: string)
    requires s != []
    ensures LeftCleaned(s) == s <==> !IsSpace(s[0]) && !IsQuote(s[0])
  {
    DropLeftStops(s, false);
    DropLeftStops(s[1..], false);
    DropLeftStops(DropLeft(s, false), true);
    DropLeftStops(s[1..], true);
  }

  lemma RightCleanedSame(s: string)
    ensures RightCleaned(s) == s <==> s == [] || (!IsSpace(s[|s| - 1]) && !IsQuote(s[|s| - 1]))
  {
    if s != [] {
      DropRightStops(s, false);
      DropRightStops(s[..|s| - 1], false);
      DropRightStops(DropRight(s, false), true);
      DropRightStops(s[..|s| - 1], true);
    }
  }

  lemma LeftExactly(name: string)
    requires name != [] ==> !IsQuote(name[0])
    ensures LeftCleaned(Registry(name)) == Registry(name) <==> !(NamesRegistry(name) && IsSpace(name[0]))
  {
    RegistryStart(name);
    LeftCleanedSame(Registry(name));
  }

  lemma RightExactly(name: string, tag: string)
    requires name != [] ==> !IsQuote(name[|name| - 1])
    requires tag == SplitTag(Registry(name), FullPath(name)).tag
    ensures RightCleaned(tag) == tag <==> !(Tagged(name) && IsSpace(name[|name| - 1]))
  {
    TagEnd(name);
    RightCleanedSame(tag);
    assert "latest"[5] == 't';
  }

  lemma ReparseName(name: string)
    requires Free(name, '@')
    requires name != [] ==> !IsQuote(name[0]) && !IsQuote(name[|name| - 1])
    ensures ParseRef(Print(ParseName(name))) == ParseName(name) <==> !Exposed(name)
  {
    ParsedIsSeparable(name);
    PrintParsesExactly(ParseName(name));
    NameParts(name);
    LeftExactly(name);
    RightExactly(name, ParseName(name).tag);
    RegistryStart(name);
    TagEnd(name);
  }

  lemma NameParts(name: string)
    ensures ParseName(name).registry == Registry(name)
    ensures ParseName(name).tag == SplitTag(Registry(name), FullPath(name)).tag
  {
  }

  /** For any digest-free reference: the canonical print of what it parses to parses to the same, unless white space is exposed. */
  lemma ReparseExactly(text: string)
    requires Free(Clean(text), '@')
    ensures ParseRef(Print(ParseRef(text))) == ParseRef(text) <==> !Exposed(Clean(text))
  {
    var name := Clean(text);
    CleanedEnds(text);
    ReparseName(name);
    DigestFreeParse(text);
    assert ParseRef(text) == ParseName(name);
  }

  /** No white space anywhere. */
  predicate Plain(s: string) {
    forall j :: 0 <= j < |s| ==> !IsSpace(s[j])
  }

  lemma CleanStaysPlain(text: string)
    requires Plain(text)
    ensures Plain(Clean(text))
  {
    StripStaysPlain(text, false);
    StripStaysPlain(Strip(text, false), true);
  }

  lemma StripStaysPlain(s: string, quotes: bool)
    requires Plain(s)
    ensures Plain(Strip(s, quotes))
  {
    var left := DropLeft(s, quotes);
    DropLeftStops(s, quotes);
    PlainSlice(s, |s| - |left|, |s|);
    DropRightStops(left, quotes);
    PlainSlice(left, 0, |DropRight(left, quotes)|);
  }

  lemma PlainSlice(s: string, lo: nat, hi: nat)
    requires lo <= hi <= |s| && Plain(s)
    ensures Plain(s[lo..hi])
  {
  }

  /** In particular the print of every digest-free reference without white space reads back, quoted or not. */
  lemma PlainReferencesReparse(text: string)
    requires Plain(text) && Free(Clean(text), '@')
    ensures ParseRef(Print(ParseRef(text))) == ParseRef(text)
  {
    CleanStaysPlain(text);
    ReparseExactly(text);
  }

  lemma PaddedName() returns (name: string)
    ensures name == "\t./x" && Free(name, '@') && Exposed(name)
  {
    name := "\t./x";
    assert name[2] == '/' && name[0] != '/' && name[1] != '/';
    assert Find(name, '/') == 2;
    assert name[..2][1] == '.';
  }

  lemma CleanQuoted()
    ensures Clean("'\t./x'") == "\t./x"
  {
    var text, tail := "'\t./x'", "\t./x'";
    assert !IsSpace(text[0]) && !IsSpace(text[5]);
    assert text[1..] == tail && !IsQuote(tail[0]);
    assert tail[..4] == "\t./x" && !IsQuote("\t./x"[3]);
    assert DropLeft(text, true) == DropLeft(tail, true) == tail;
    assert DropRight(tail, true) == DropRight("\t./x", true) == "\t./x";
  }

  /** Quotes around a padded reference keep its white space, and then the print does not read back. */
  lemma QuotedPaddingDoesNotReparse()
    ensures ParseRef(Print(ParseRef("'\t./x'"))) != ParseRef("'\t./x'")
  {
    var name := PaddedName();
    CleanQuoted();
    ReparseExactly("'\t./x'");
  }
}
