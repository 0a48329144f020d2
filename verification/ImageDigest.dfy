/**
 References with a digest: what they parse to, when their own form reads back, and
 when the form the checker prints does.
 */
module ImageDigest {
  import opened ImageRef

  lemma CutDigestAt(name: string, digest: string)
    requires Free(name, '@')
    ensures CutDigest(name + ("@" + digest)) == (name, digest)
  {
    var s := name + ("@" + digest);
    assert s[|name|] == '@' && forall j :: 0 <= j < |name| ==> s[j] == name[j];
    assert Find(s, '@') == |name|;
    assert s[..|name|] == name && s[|name| + 1..] == digest;
  }

  /** Every cleaned text with an `@` is a name, the first `@`, and a digest. */
  lemma EveryAtCuts(text: string)
    requires !Free(text, '@')
    ensures var (name, digest) := CutDigest(text); Free(name, '@') && text == name + ("@" + digest)
  {
    var at := Find(text, '@');
    assert text == text[..at] + ("@" + text[at + 1..]);
  }

  /**
   A digest replaces the tag: registry and digest come back as they stand, and the
   repository is the one the name alone has exactly when the name carries no tag. An
   empty digest is as good as none.
   */
  lemma DigestReadsBack(text: string, name: string, digest: string)
    requires Free(name, '@') && Clean(text) == name + ("@" + digest)
    ensures ParseRef(text).registry == ParseName(name).registry
    ensures digest == "" ==> ParseRef(text) == ParseName(name)
    ensures digest != "" ==>
              ParseRef(text).tag == digest && (ParseRef(text).repo == ParseName(name).repo <==> !Tagged(name))
  {
    CutDigestAt(name, digest);
  }

  /** A short name with a digest is the Docker Hub library's. */
  lemma ShortNameWithDigest(name: string, digest: string)
    requires Free(name, '@') && Free(name, '/') && digest != "" && IsClean(name + ("@" + digest))
    ensures ParseRef(name + ("@" + digest)) == Image(HUB, "library/" + name, digest)
  {
    CleanIsIdentity(name + ("@" + digest));
    CutDigestAt(name, digest);
  }

  /** The parts a reference with a digest parses to. */
  predicate DigestParts(i: Image) {
    && IsHost(i.registry) && Free(i.registry, '/') && Free(i.registry, '@') && Free(i.repo, '@') && i.tag != ""
    && (i.registry == HUB ==> !Free(i.repo, '/'))
  }

  lemma ParsedAreDigestParts(text: string, name: string, digest: string)
    requires Free(name, '@') && Clean(text) == name + ("@" + digest) && digest != ""
    ensures ParseRef(text) == Image(Registry(name), FullPath(name), digest) && DigestParts(ParseRef(text))
  {
    CutDigestAt(name, digest);
    RegistryIsHost(name);
    PathKeepsOff(name);
  }

  // ----- registry/repository@digest -----

  lemma RightCleanedLatest()
    ensures RightCleaned("latest") == "latest"
  {
    assert "latest"[5] == 't';
    RightCleanedSame("latest");
  }

  /** Once its digest is stripped away altogether, a print reads back as something else. */
  lemma EmptiedDigestDiffers(i: Image)
    requires DigestParts(i) && RightCleaned(i.tag) == ""
    ensures ParseName(i.registry + ("/" + i.repo)) != i
  {
    HostSplits(i.registry, i.repo);
    RightCleanedLatest();
  }

  lemma RegistryShortened(i: Image)
    requires DigestParts(i)
    ensures var l := LeftCleaned(i.registry);
            && Free(l + ("/" + i.repo), '@') && Registry(l + ("/" + i.repo)) == l
            && PathPart(l + ("/" + i.repo)) == i.repo
  {
    var l := LeftCleaned(i.registry);
    CleanPrint(i, "@");
    SuffixFree(l, i.registry, '/');
    SuffixFree(l, i.registry, '@');
    HostSplits(l, i.repo);
    FreeConcat("/", i.repo, '@');
    FreeConcat(l, "/" + i.repo, '@');
  }

  lemma DigestPrintParts(i: Image)
    ensures PrintWith(i, "@") == (i.registry + ("/" + i.repo)) + ("@" + i.tag)
  {
  }

  /** `registry/repository@digest` reads back exactly when cleaning leaves registry and digest whole. */
  lemma DigestFormParsesExactly(i: Image)
    requires DigestParts(i)
    ensures ParseRef(PrintWith(i, "@")) == i <==> LeftCleaned(i.registry) == i.registry && RightCleaned(i.tag) == i.tag
  {
    var j := Cleaned(i);
    CleanPrint(i, "@");
    DigestPrintParts(j);
    RegistryShortened(i);
    CutDigestAt(j.registry + ("/" + j.repo), j.tag);
    if j.registry == i.registry && j.tag == "" {
      EmptiedDigestDiffers(i);
    }
  }

  /** White space cleaning would take off `registry/repository@digest`: before an explicit registry, or after the digest. */
  predicate DigestExposed(name: string, digest: string)
    requires digest != ""
  {
    (NamesRegistry(name) && IsSpace(name[0])) || IsSpace(digest[|digest| - 1])
  }

  lemma CleanedDigestEnds(text: string, name: string, digest: string)
    requires Clean(text) == name + ("@" + digest) && digest != ""
    ensures !IsQuote(digest[|digest| - 1]) && (name != [] ==> !IsQuote(name[0]))
  {
    var s := Clean(text);
    CleanedEnds(text);
    assert s[|s| - 1] == digest[|digest| - 1];
    assert name != [] ==> s[0] == name[0];
  }

  lemma DigestSides(text: string, name: string, digest: string)
    requires Clean(text) == name + ("@" + digest) && digest != ""
    ensures LeftCleaned(Registry(name)) == Registry(name) && RightCleaned(digest) == digest <==> !DigestExposed(name, digest)
  {
    CleanedDigestEnds(text, name, digest);
    LeftExactly(name);
    RightCleanedSame(digest);
  }

  /** For any reference with a digest, tagged or not: the digest form of what it parses to parses to the same, unless white space is exposed. */
  lemma DigestReparseExactly(text: string, name: string, digest: string)
    requires Free(name, '@') && Clean(text) == name + ("@" + digest) && digest != ""
    ensures ParseRef(PrintWith(ParseRef(text), "@")) == ParseRef(text) <==> !DigestExposed(name, digest)
  {
    ParsedAreDigestParts(text, name, digest);
    DigestFormParsesExactly(ParseRef(text));
    DigestSides(text, name, digest);
  }

  /** In particular that form of every reference with a digest and without white space reads back. */
  lemma PlainDigestsReparse(text: string, name: string, digest: string)
    requires Free(name, '@') && Clean(text) == name + ("@" + digest) && digest != "" && Plain(text)
    ensures ParseRef(PrintWith(ParseRef(text), "@")) == ParseRef(text)
  {
    var s := Clean(text);
    CleanStaysPlain(text);
    assert s[|s| - 1] == digest[|digest| - 1];
    assert name != [] ==> s[0] == name[0];
    DigestReparseExactly(text, name, digest);
  }

  // ----- registry/repository:digest, as the checker prints it -----

  lemma TagOrDigest(name: string, digest: string)
    requires Free(name, '@')
    ensures var tag := ParseCleaned(name + ("@" + digest)).tag; tag == digest || Free(tag, '@')
  {
    CutDigestAt(name, digest);
    ParsedIsSeparable(name);
  }

  /** A text whose first `@` lies in its tail is cut there. */
  lemma CutInTail(head: string, tail: string) returns (name: string, digest: string)
    requires Free(head, '@') && !Free(tail, '@')
    ensures Free(name, '@') && head + tail == name + ("@" + digest) && |digest| < |tail|
  {
    var cut := CutDigest(tail);
    EveryAtCuts(tail);
    name, digest := head + cut.0, cut.1;
    FreeConcat(head, cut.0, '@');
    Regroup(head, cut.0, "@" + digest);
  }

  lemma Regroup(a: string, b: string, c: string)
    ensures a + (b + c) == (a + b) + c
  {
  }

  /** What such a text is read to have for a tag is shorter than the tail, or free of `@`. */
  lemma ShorterTail(head: string, tail: string, tag: string)
    requires Free(head, '@') && !Free(tail, '@') && !Free(tag, '@') && |tail| <= |tag|
    ensures ParseCleaned(head + tail).tag != tag
  {
    var name, digest := CutInTail(head, tail);
    TagOrDigest(name, digest);
  }

  /** With an `@` in the tag's place, the print reads back as something else. */
  lemma AtInTagDiffers(i: Image)
    requires DigestParts(i) && !Free(i.tag, '@')
    ensures ParseRef(Print(i)) != i
  {
    var j := Cleaned(i);
    var head := j.registry + ("/" + (j.repo + ":"));
    CleanPrint(i, ":");
    RightCleanedKeeps(i.tag, '@');
    HeadHasNoAt(i);
    assert Print(j) == head + j.tag;
    ShorterTail(head, j.tag, i.tag);
  }

  lemma HeadHasNoAt(i: Image)
    requires DigestParts(i)
    ensures Free(LeftCleaned(i.registry) + ("/" + (i.repo + ":")), '@')
  {
    var l := LeftCleaned(i.registry);
    CleanPrint(i, ":");
    SuffixFree(l, i.registry, '@');
    FreeConcat(i.repo, ":", '@');
    FreeConcat("/", i.repo + ":", '@');
    FreeConcat(l, "/" + (i.repo + ":"), '@');
  }

  /** A tag free of `@` leaves the cleaned print free of it. */
  lemma PrintStaysFree(i: Image)
    requires DigestParts(i) && Free(i.tag, '@')
    ensures Free(Clean(Print(i)), '@')
  {
    var j := Cleaned(i);
    CleanPrint(i, ":");
    RightCleanedKeeps(i.tag, '@');
    HeadHasNoAt(i);
    assert Print(j) == (j.registry + ("/" + (j.repo + ":"))) + j.tag;
    FreeConcat(j.registry + ("/" + (j.repo + ":")), j.tag, '@');
  }

  /** The checker's print of any parts with a digest reads back exactly when the digest could pass for a tag and nothing is cleaned away. */
  lemma PrintedDigestParsesExactly(i: Image)
    requires DigestParts(i)
    ensures ParseRef(Print(i)) == i <==>
              Free(i.tag, ':') && Free(i.tag, '@') && LeftCleaned(i.registry) == i.registry && RightCleaned(i.tag) == i.tag
  {
    if !Free(i.tag, '@') {
      AtInTagDiffers(i);
    } else if Free(i.tag, ':') {
      PrintParsesExactly(i);
    } else {
      PrintStaysFree(i);
      DigestFreeParse(Print(i));
      ParsedIsSeparable(Clean(Print(i)));
    }
  }

  /** For any reference with a digest: what the checker prints of it parses to the same exactly in that case. */
  lemma PrintedReferenceParsesExactly(text: string, name: string, digest: string)
    requires Free(name, '@') && Clean(text) == name + ("@" + digest) && digest != ""
    ensures ParseRef(Print(ParseRef(text))) == ParseRef(text) <==>
              Free(digest, ':') && Free(digest, '@') && !DigestExposed(name, digest)
  {
    ParsedAreDigestParts(text, name, digest);
    PrintedDigestParsesExactly(ParseRef(text));
    DigestSides(text, name, digest);
  }
}
