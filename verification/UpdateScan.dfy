/** The update scan: what is decided about one container, why an upgrade can only move forward within its line,
    and why grouping, memoising and parallel workers change nothing. */
module UpdateScan {
  import opened Text
  import opened ImageRef
  import opened Semver

  datatype Reply<T> = Got(value: T) | Failed

  /** What the world answers during one scan: the registry by parsed reference, the local daemon by image id. */
  datatype World = World(
    tags: Name -> Reply<seq<string>>,
    digest: Ref -> Reply<string>,
    repoDigests: string -> Reply<seq<string>>)

  datatype Note =
    | NoNote | LocalBuild | LocalUnreadable | RegistryUnreadable | TagsUnlisted | BestUnreadable
    | SameContent | ChangedContent | RunsBest(tag: string) | UpgradeTo(tag: string) | BestChanged(tag: string)
    | Latest(tag: string) | MajorAbove(tag: string) | MajorBelow(tag: string)

  datatype Item = Item(
    name: string, image: string, state: string, updateType: string,
    hasUpdate: int, suggested: string, note: Note, localDigest: string, registryDigest: string)

  predicate Eligible(updateType: string) {
    updateType == "latest" || updateType == "tag" || updateType == "unmanaged"
  }

  // ----- the two sides of the comparison -----

  function CutDigest(rd: string): Option<(string, string)> {
    var i := IndexOf(rd, '@');
    if i < 0 then None else Some((rd[..i], rd[i + 1..]))
  }

  predicate DigestOf(rd: string, imageRef: string) {
    CutDigest(rd).Some? && CanonicalRepository(CutDigest(rd).value.0) == CanonicalRepository(imageRef)
  }

  function FirstDigest(rds: seq<string>, imageRef: string): string {
    if rds == [] then ""
    else if DigestOf(rds[0], imageRef) then TrimPrefix(TrimSpace(CutDigest(rds[0]).value.1), "sha256:")
    else FirstDigest(rds[1..], imageRef)
  }

  /** The digest under which the running image is known in the configured repository. */
  function Local(w: World, imageId: string, imageRef: string): Reply<string> {
    if TrimSpace(imageId) == "" then Got("")
    else
      match w.repoDigests(imageId)
      case Failed => Failed
      case Got(rds) => Got(FirstDigest(rds, imageRef))
  }

  lemma {:induction false} FirstDigestByRepository(rds: seq<string>, a: string, b: string)
    requires CanonicalRepository(a) == CanonicalRepository(b)
    ensures FirstDigest(rds, a) == FirstDigest(rds, b)
  {
    hide CanonicalRepository, CutDigest;
    if rds != [] {
      FirstDigestByRepository(rds[1..], a, b);
    }
  }

  function NonEmpty(r: Reply<string>): Reply<string> {
    if r.Got? && TrimSpace(r.value) == "" then Failed else r
  }

  function TagsFor(w: World, ref: string): Reply<seq<string>> {
    w.tags(Name(ParseRef(ref).reg, ParseRef(ref).repo))
  }

  function DigestFor(w: World, ref: string): Reply<string> {
    NonEmpty(w.digest(ParseRef(ref)))
  }

  /** What one group asks the registry, once. */
  datatype Probe = Probe(tags: Reply<seq<string>>, best: string, overall: string, bestDigest: Reply<string>, sameDigest: Reply<string>)

  function ProbeRef(w: World, pre: Prerelease, ref: string): Probe {
    var cur := ParseRef(ref).tag;
    var tags := TagsFor(w, ref);
    var best := if tags.Got? then HighestCompatible(pre, cur, tags.value) else "";
    Probe(
      tags, best,
      if tags.Got? then Newest(tags.value, _ => true) else "",
      if best != "" then DigestFor(w, ImageRepoTag(ref, best)) else Got(""),
      if best == "" || FloatingOrLatest(cur) then DigestFor(w, StripDigest(ref)) else Got(""))
  }

  // ----- the decision -----

  function Compared(item: Item, remote: string, local: string): Item {
    item.(registryDigest := remote, hasUpdate := if remote == local then 0 else 1,
          note := if remote == local then SameContent else ChangedContent)
  }

  /** The same tag's content, now and here. */
  function SameTag(p: Probe, local: string, item: Item): Item {
    if p.sameDigest.Failed? then item.(note := RegistryUnreadable) else Compared(item, p.sameDigest.value, local)
  }

  predicate MajorsDiffer(a: string, b: string) {
    Parse(a).Some? && Parse(b).Some? && Parse(a).value.major != Parse(b).value.major
  }

  predicate Above(tag: string, cur: string) {
    Parse(cur).Some? && Parse(tag).Some? && Less(Parse(cur).value, Parse(tag).value)
  }

  /** The decision as a table: floating tags compare content, versions look for the best compatible tag, and
      without one only the same tag's content counts, unless the list has moved to another major version. */
  function Decide(p: Probe, ref: string, local: Reply<string>, item0: Item): Item {
    var item := if local.Got? && local.value != "" then item0.(localDigest := local.value) else item0;
    var cur := ParseRef(ref).tag;
    if local.Failed? then item.(note := LocalUnreadable)
    else if local.value == "" then item.(updateType := "local", note := LocalBuild)
    else if FloatingOrLatest(cur) then SameTag(p, local.value, item)
    else if p.tags.Failed? then item.(note := TagsUnlisted)
    else if p.best == "" then
      if MajorsDiffer(cur, p.overall) then
        item.(hasUpdate := 0,
              note := if Parse(cur).value.major < Parse(p.overall).value.major then MajorAbove(p.overall) else MajorBelow(p.overall))
      else SameTag(p, local.value, item)
    else if p.bestDigest.Failed? then item.(note := BestUnreadable)
    else
      var found := item.(registryDigest := p.bestDigest.value);
      if p.bestDigest.value == local.value then found.(hasUpdate := 0, note := RunsBest(p.best))
      else if Above(p.best, cur) then
        found.(hasUpdate := 1, suggested := ImageRepoTag(ref, p.best), note := UpgradeTo(p.best))
      else if cur == p.best then found.(hasUpdate := 1, note := BestChanged(p.best))
      else found.(hasUpdate := 0, note := Latest(p.best))
  }

  function Scanned(w: World, pre: Prerelease, ref: string, imageId: string, item: Item): Item {
    Decide(ProbeRef(w, pre, ref), ref, Local(w, imageId, item.image), item)
  }

  /** The scan of one container by itself. */
  function Alone(w: World, pre: Prerelease, imageId: string, item: Item): Item {
    if Eligible(item.updateType) then Scanned(w, pre, item.image, imageId, item) else item
  }

  /** Only containers that follow a channel or a tag, and unmanaged ones, are looked at. */
  lemma LookedAtIff(w: World, pre: Prerelease, imageId: string, item: Item)
    ensures Alone(w, pre, imageId, item) ==
      if item.updateType in {"latest", "tag", "unmanaged"} then Scanned(w, pre, item.image, imageId, item) else item
  {
    hide Scanned;
  }

  lemma ProbeFacts(w: World, pre: Prerelease, ref: string)
    ensures var p := ProbeRef(w, pre, ref); var cur := ParseRef(ref).tag;
      && (p.best != "" ==> p.tags.Got? && Compatible(pre, cur, p.best))
      && (p.best == "" || FloatingOrLatest(cur) ==> p.sameDigest.Failed? || p.sameDigest.value != "")
      && (p.best != "" ==> p.bestDigest.Failed? || p.bestDigest.value != "")
  {
    hide ParseRef, HighestCompatible, Newest, ImageRepoTag, StripDigest, FloatingOrLatest, Compatible, DigestFor, TagsFor;
    var cur, tags := ParseRef(ref).tag, TagsFor(w, ref);
    if tags.Got? && HighestCompatible(pre, cur, tags.value) != "" {
      BestIsCompatible(pre, cur, tags.value);
    }
    DigestNonempty(w, ImageRepoTag(ref, ProbeRef(w, pre, ref).best));
    DigestNonempty(w, StripDigest(ref));
  }

  lemma BestIsCompatible(pre: Prerelease, cur: string, tags: seq<string>)
    requires HighestCompatible(pre, cur, tags) != ""
    ensures Compatible(pre, cur, HighestCompatible(pre, cur, tags))
  {
    hide Compatible, HighestCompatible;
    SelectedIsCompatible(pre, cur, tags);
  }

  lemma DigestNonempty(w: World, ref: string)
    ensures DigestFor(w, ref).Failed? || DigestFor(w, ref).value != ""
  {
    hide ParseRef;
  }

  /** The loop body of the program, branch by branch. The branches that end in `assert false` are there in the
      program too; they can never run, the guard against crossing a major version among them. */
  method Judge(w: World, pre: Prerelease, ref: string, p: Probe, local: Reply<string>, item0: Item) returns (item: Item)
    requires p == ProbeRef(w, pre, ref)
    ensures item == Decide(p, ref, local, item0)
  {
    ProbeFacts(w, pre, ref);
    hide ParseRef, ProbeRef, ImageRepoTag, FloatingOrLatest, Parse, Less, SameVariant, IsPrerelease;
    var cur := ParseRef(ref).tag;
    var needSame := p.best == "" || FloatingOrLatest(cur);
    item := item0;
    if local.Got? && local.value != "" {
      item := item.(localDigest := local.value);
    }
    if local.Got? && local.value == "" {
      item := item.(updateType := "local", note := LocalBuild);
      return;
    }
    if local.Failed? {
      item := item.(note := LocalUnreadable);
      return;
    }
    if FloatingOrLatest(cur) {
      if p.sameDigest.Failed? {
        item := item.(note := RegistryUnreadable);
        return;
      }
      item := item.(registryDigest := p.sameDigest.value);
      if p.sameDigest.value == local.value {
        item := item.(hasUpdate := 0, note := SameContent);
      } else {
        item := item.(hasUpdate := 1, note := ChangedContent);
      }
      return;
    }
    if p.tags.Failed? {
      item := item.(note := TagsUnlisted);
      return;
    }
    if p.best != "" {
      if p.bestDigest.Failed? {
        if !needSame || p.sameDigest.Failed? {
          item := item.(note := BestUnreadable);
          return;
        }
        assert false;
      } else {
        item := item.(registryDigest := p.bestDigest.value);
        var curSV, bestSV := Parse(cur), Parse(p.best);
        if curSV.Some? && bestSV.Some? && curSV.value.major != bestSV.value.major {
          assert false;
        }
        if p.bestDigest.value == local.value {
          item := item.(hasUpdate := 0, note := RunsBest(p.best));
          return;
        }
        var newer := FloatingOrLatest(cur) || curSV.None? || Less(curSV.value, bestSV.value);
        if newer && p.bestDigest.value != local.value {
          item := item.(hasUpdate := 1, suggested := ImageRepoTag(ref, p.best), note := UpgradeTo(p.best));
          return;
        }
        if curSV.Some? && !Less(curSV.value, bestSV.value) && p.bestDigest.value != local.value && cur == p.best {
          item := item.(hasUpdate := 1, note := BestChanged(p.best));
          return;
        }
        item := item.(hasUpdate := 0, note := Latest(p.best));
        return;
      }
    }
    var curSV, allSV := Parse(cur), Parse(p.overall);
    if curSV.Some? && allSV.Some? && curSV.value.major != allSV.value.major {
      item := item.(hasUpdate := 0);
      if curSV.value.major < allSV.value.major {
        item := item.(note := MajorAbove(p.overall));
      } else {
        item := item.(note := MajorBelow(p.overall));
      }
      return;
    }
    if p.sameDigest.Failed? {
      item := item.(note := RegistryUnreadable);
      return;
    }
    if p.sameDigest.value == "" {
      assert false;
    }
    item := item.(registryDigest := p.sameDigest.value);
    if p.sameDigest.value == local.value {
      item := item.(hasUpdate := 0, note := SameContent);
    } else {
      item := item.(hasUpdate := 1, note := ChangedContent);
    }
  }

  /** An update is announced only where the registry's content differs from what is running. */
  lemma UpdateMeansDifferent(w: World, pre: Prerelease, ref: string, imageId: string, item: Item)
    requires item.hasUpdate != 1
    ensures var r := Scanned(w, pre, ref, imageId, item);
      r.hasUpdate == 1 ==> r.localDigest != "" && r.registryDigest != "" && r.registryDigest != r.localDigest
                           && Local(w, imageId, item.image) == Got(r.localDigest)
  {
    ProbeFacts(w, pre, ref);
    hide ParseRef, ProbeRef, ImageRepoTag, FloatingOrLatest, Parse, Less, Local, Compatible;
  }

  // ----- what is announced, from the world's answers -----

  /** The registry's content of a reference was read. */
  predicate Read(w: World, ref: Ref) {
    w.digest(ref).Got? && TrimSpace(w.digest(ref).value) != ""
  }

  /** It was read and is not the given one. */
  predicate Differs(w: World, ref: Ref, digest: string) {
    Read(w, ref) && w.digest(ref).value != digest
  }

  /** It was read and is the given one. */
  predicate Agrees(w: World, ref: Ref, digest: string) {
    Read(w, ref) && w.digest(ref).value == digest
  }

  /** The registry's tags of an image, if they could be listed. */
  function Listed(w: World, ref: string): Reply<seq<string>> {
    w.tags(Name(ParseRef(ref).reg, ParseRef(ref).repo))
  }

  /** The highest compatible version there is, or "". */
  function BestTag(w: World, pre: Prerelease, ref: string): string {
    if Listed(w, ref).Got? then HighestCompatible(pre, ParseRef(ref).tag, Listed(w, ref).value) else ""
  }

  /** The tag is a version of another major than the newest version of the list. */
  predicate OtherMajor(w: World, ref: string) {
    Listed(w, ref).Got? && MajorsDiffer(ParseRef(ref).tag, Newest(Listed(w, ref).value, _ => true))
  }

  /** The tag is compared with its own content in the registry: it is a floating one, or has no compatible version
      and its major is the list's. */
  predicate SameTagDecides(w: World, pre: Prerelease, ref: string) {
    || FloatingOrLatest(ParseRef(ref).tag)
    || (Listed(w, ref).Got? && BestTag(w, pre, ref) == "" && !OtherMajor(w, ref))
  }

  predicate BestDecides(w: World, pre: Prerelease, ref: string) {
    !FloatingOrLatest(ParseRef(ref).tag) && BestTag(w, pre, ref) != ""
  }

  /** There is an update for a container whose running digest is known: its own tag's content changed; or a higher
      compatible version has other content; or the best version is its own, with other content. */
  predicate HasNews(w: World, pre: Prerelease, ref: string, running: string) {
    var cur := ParseRef(ref).tag;
    || (SameTagDecides(w, pre, ref) && Differs(w, ParseRef(StripDigest(ref)), running))
    || (BestDecides(w, pre, ref) && Differs(w, ParseRef(ImageRepoTag(ref, BestTag(w, pre, ref))), running)
        && (Above(BestTag(w, pre, ref), cur) || cur == BestTag(w, pre, ref)))
  }

  /** There is none: the content compared is the running one, or the best version is neither above the running tag
      nor the running tag, or the list has moved to another major version. */
  predicate HasNoNews(w: World, pre: Prerelease, ref: string, running: string) {
    var cur := ParseRef(ref).tag;
    || (SameTagDecides(w, pre, ref) && Agrees(w, ParseRef(StripDigest(ref)), running))
    || (BestDecides(w, pre, ref) && Read(w, ParseRef(ImageRepoTag(ref, BestTag(w, pre, ref))))
        && (Agrees(w, ParseRef(ImageRepoTag(ref, BestTag(w, pre, ref))), running)
            || !(Above(BestTag(w, pre, ref), cur) || cur == BestTag(w, pre, ref))))
    || (!FloatingOrLatest(cur) && Listed(w, ref).Got? && BestTag(w, pre, ref) == "" && OtherMajor(w, ref))
  }

  lemma ProbeIs(w: World, pre: Prerelease, ref: string)
    ensures var p := ProbeRef(w, pre, ref); var best := BestTag(w, pre, ref);
      && p.tags == Listed(w, ref) && p.best == best
      && (p.tags.Got? ==> p.overall == Newest(Listed(w, ref).value, _ => true))
      && (best != "" ==> p.bestDigest == NonEmpty(w.digest(ParseRef(ImageRepoTag(ref, best)))))
      && (best == "" || FloatingOrLatest(ParseRef(ref).tag) ==> p.sameDigest == NonEmpty(w.digest(ParseRef(StripDigest(ref)))))
  {
    hide ParseRef, HighestCompatible, Newest, ImageRepoTag, StripDigest, FloatingOrLatest, NonEmpty;
  }

  lemma NonEmptyIs(r: Reply<string>)
    ensures NonEmpty(r).Got? <==> r.Got? && TrimSpace(r.value) != ""
    ensures NonEmpty(r).Got? ==> NonEmpty(r) == r
  {
  }

  /** Exactly when a scan announces an update, denies one, or leaves the question as it was, from what the registry
      and the daemon answer. */
  lemma AnnouncedIff(w: World, pre: Prerelease, ref: string, imageId: string, item: Item)
    ensures var local := Local(w, imageId, item.image); var r := Scanned(w, pre, ref, imageId, item);
      var known := local.Got? && local.value != "";
      && (known && HasNews(w, pre, ref, local.value) ==> r.hasUpdate == 1)
      && (known && HasNoNews(w, pre, ref, local.value) ==> r.hasUpdate == 0)
      && (!known || (!HasNews(w, pre, ref, local.value) && !HasNoNews(w, pre, ref, local.value)) ==> r.hasUpdate == item.hasUpdate)
      && (known ==> !(HasNews(w, pre, ref, local.value) && HasNoNews(w, pre, ref, local.value)))
  {
    hide ParseRef, ProbeRef, ImageRepoTag, StripDigest, FloatingOrLatest, MajorsDiffer, Above, Local, NonEmpty, BestTag, Listed;
    ProbeIs(w, pre, ref);
    NonEmptyIs(w.digest(ParseRef(StripDigest(ref))));
    NonEmptyIs(w.digest(ParseRef(ImageRepoTag(ref, BestTag(w, pre, ref)))));
    ListedOrNone(w, pre, ref);
  }

  lemma ListedOrNone(w: World, pre: Prerelease, ref: string)
    ensures Listed(w, ref).Failed? ==> BestTag(w, pre, ref) == ""
  {
    hide ParseRef, HighestCompatible;
  }

  /** What the scan says in each case, and which of the world's answers that rests on. */
  lemma NotesSay(w: World, pre: Prerelease, ref: string, imageId: string, item: Item)
    ensures var local := Local(w, imageId, item.image); var r := Scanned(w, pre, ref, imageId, item);
      var cur, best := ParseRef(ref).tag, BestTag(w, pre, ref);
      var own, other := ParseRef(StripDigest(ref)), ParseRef(ImageRepoTag(ref, best));
      if local.Failed? then r.note == LocalUnreadable
      else if local.value == "" then r.note == LocalBuild && r.updateType == "local"
      else
        && r.localDigest == local.value
        && (SameTagDecides(w, pre, ref) ==>
              r.note == (if !Read(w, own) then RegistryUnreadable
                         else if Agrees(w, own, local.value) then SameContent else ChangedContent))
        && (!FloatingOrLatest(cur) && Listed(w, ref).Failed? ==> r.note == TagsUnlisted)
        && (!FloatingOrLatest(cur) && Listed(w, ref).Got? && best == "" && OtherMajor(w, ref) ==>
              var newest := Newest(Listed(w, ref).value, _ => true);
              r.note == if Parse(cur).value.major < Parse(newest).value.major then MajorAbove(newest) else MajorBelow(newest))
        && (BestDecides(w, pre, ref) ==>
              r.note == (if !Read(w, other) then BestUnreadable
                         else if Agrees(w, other, local.value) then RunsBest(best)
                         else if Above(best, cur) then UpgradeTo(best)
                         else if cur == best then BestChanged(best) else Latest(best)))
  {
    hide ParseRef, ProbeRef, ImageRepoTag, StripDigest, FloatingOrLatest, Above, Local, NonEmpty, BestTag, Listed, Parse, Newest;
    ProbeIs(w, pre, ref);
    NonEmptyIs(w.digest(ParseRef(StripDigest(ref))));
    NonEmptyIs(w.digest(ParseRef(ImageRepoTag(ref, BestTag(w, pre, ref)))));
    ListedOrNone(w, pre, ref);
  }

  /** The running digest is the one the daemon lists first for the configured repository, without its algorithm and
      the white space around it; without an entry for the repository there is none. */
  lemma RunningDigest(w: World, imageId: string, image: string, rds: seq<string>, i: nat, repo: string, hex: string)
    requires TrimSpace(imageId) != "" && w.repoDigests(imageId) == Got(rds)
    ensures (forall j :: 0 <= j < |rds| ==> !DigestOf(rds[j], image)) ==> Local(w, imageId, image) == Got("")
    ensures i < |rds| && (forall j :: 0 <= j < i ==> !DigestOf(rds[j], image))
         && '@' !in repo && rds[i] == repo + "@sha256:" + hex && CanonicalRepository(repo) == CanonicalRepository(image)
         && Trimmed("sha256:" + hex)
         ==> Local(w, imageId, image) == Got(hex)
  {
    hide CanonicalRepository, TrimSpace, DigestOf;
    if forall j :: 0 <= j < |rds| ==> !DigestOf(rds[j], image) {
      NoneFor(rds, image);
    }
    if i < |rds| && (forall j :: 0 <= j < i ==> !DigestOf(rds[j], image))
       && '@' !in repo && rds[i] == repo + "@sha256:" + hex && CanonicalRepository(repo) == CanonicalRepository(image)
       && Trimmed("sha256:" + hex) {
      CutAt(rds[i], repo, hex);
      IsDigestOf(rds[i], repo, hex, image);
      FirstFor(rds, image, i);
      TrimSpaceFixed("sha256:" + hex);
      assert ("sha256:" + hex)[7..] == hex;
    }
  }

  lemma CutAt(rd: string, repo: string, hex: string)
    requires '@' !in repo && rd == repo + "@sha256:" + hex
    ensures CutDigest(rd) == Some((repo, "sha256:" + hex))
  {
    assert rd[|repo|] == '@' && rd[..|repo|] == repo && rd[|repo| + 1..] == "sha256:" + hex;
    IndexOfIs(rd, '@', |repo|);
  }

  lemma IsDigestOf(rd: string, repo: string, hex: string, image: string)
    requires CutDigest(rd) == Some((repo, "sha256:" + hex)) && CanonicalRepository(repo) == CanonicalRepository(image)
    ensures DigestOf(rd, image)
  {
    hide CanonicalRepository, CutDigest;
  }

  lemma {:induction false} NoneFor(rds: seq<string>, image: string)
    requires forall j :: 0 <= j < |rds| ==> !DigestOf(rds[j], image)
    ensures FirstDigest(rds, image) == ""
  {
    hide DigestOf;
    if rds != [] {
      assert !DigestOf(rds[0], image);
      NoneFor(rds[1..], image);
    }
  }

  lemma {:induction false} FirstFor(rds: seq<string>, image: string, i: nat)
    requires i < |rds| && DigestOf(rds[i], image) && forall j :: 0 <= j < i ==> !DigestOf(rds[j], image)
    ensures CutDigest(rds[i]).Some?
    ensures FirstDigest(rds, image) == TrimPrefix(TrimSpace(CutDigest(rds[i]).value.1), "sha256:")
  {
    hide CanonicalRepository, CutDigest, TrimSpace;
    if i > 0 {
      assert !DigestOf(rds[0], image);
      FirstFor(rds[1..], image, i - 1);
    }
  }

  // ----- upgrades only move forward -----

  /** Exactly when a scan suggests another image, and which. */
  lemma SuggestedIff(w: World, pre: Prerelease, ref: string, imageId: string, item: Item)
    requires item.suggested == ""
    ensures Scanned(w, pre, ref, imageId, item).suggested != ""
       <==> Suggests(ProbeRef(w, pre, ref), ParseRef(ref).tag, Local(w, imageId, item.image))
    ensures Scanned(w, pre, ref, imageId, item).suggested != ""
       ==> Scanned(w, pre, ref, imageId, item).suggested == ImageRepoTag(ref, ProbeRef(w, pre, ref).best)
  {
    hide ParseRef, ProbeRef, ImageRepoTag, FloatingOrLatest, Parse, Above, Local, SameVariant, IsPrerelease;
    ProbeFacts(w, pre, ref);
    RetagNonempty(ref, ProbeRef(w, pre, ref).best);
  }

  /** The running image is known, the tag is no channel, and the registry has a compatible version above it with
      other content. */
  predicate Suggests(p: Probe, cur: string, local: Reply<string>) {
    && local.Got? && local.value != "" && !FloatingOrLatest(cur)
    && p.best != "" && p.bestDigest.Got? && p.bestDigest.value != local.value && Above(p.best, cur)
  }

  lemma RetagNonempty(ref: string, t: string)
    ensures ImageRepoTag(ref, t) != ""
  {
    hide ParseRef;
    assert ':' in ImageRepoTag(ref, t);
  }

  /** References the upgrade path is meant for: trimmed, without digest, and with a name that survives spelling. */
  predicate Upgradable(image: string) {
    && '@' !in image && Trimmed(image)
    && Plain(ParseRef(image).reg) && Plain(ParseRef(image).repo) && ReadsBack(Name(ParseRef(image).reg, ParseRef(image).repo))
  }

  /** A registry lists well-formed tags, give or take white space around them. */
  predicate CleanTags(tags: Reply<seq<string>>) {
    tags.Got? ==> forall i :: 0 <= i < |tags.value| ==> CleanTag(TrimSpace(tags.value[i]))
  }

  /** From one image to another within one line: same registry, repository, major version and variant, never from
      a release to a pre-release, and strictly up. */
  predicate Forward(pre: Prerelease, a: string, b: string) {
    var x, y := ParseRef(a), ParseRef(b);
    && x.reg == y.reg && x.repo == y.repo
    && Compatible(pre, x.tag, y.tag)
    && Less(Parse(x.tag).value, Parse(y.tag).value)
  }

  /** A suggestion is a step forward, to a reference that can be upgraded again. */
  lemma SuggestionIsForward(w: World, pre: Prerelease, image: string, imageId: string, item: Item)
    requires Upgradable(image) && item.suggested == "" && CleanTags(TagsFor(w, image))
    requires Scanned(w, pre, image, imageId, item).suggested != ""
    ensures var s := Scanned(w, pre, image, imageId, item).suggested;
      && Forward(pre, image, s) && Upgradable(s) && ParseRef(s).tag == ProbeRef(w, pre, image).best
  {
    hide ParseRef, Scanned, Local, FloatingOrLatest, Parse, Less, Plain, Compatible, ReadsBack, ImageRepoTag;
    SuggestedIff(w, pre, image, imageId, item);
    ProbeFacts(w, pre, image);
    var x, best := ParseRef(image), ProbeRef(w, pre, image).best;
    SelectedIsCompatible(pre, x.tag, TagsFor(w, image).value);
    hide HighestCompatible, TagsFor;
    assert CleanTag(best);
    RetagIff(image, best);
    RetagIsPlain(image, best);
  }

  lemma RetagIsPlain(image: string, t: string)
    requires Plain(ParseRef(image).reg) && Plain(ParseRef(image).repo) && CleanTag(t)
    ensures '@' !in ImageRepoTag(image, t) && Trimmed(ImageRepoTag(image, t))
  {
    hide ParseRef, CleanTag;
    var n := Name(ParseRef(image).reg, ParseRef(image).repo);
    SpelledPlain(n);
    TaggedPlain(Spelled(n), t);
    hide Spelled;
    PlainIsTrimmed(ImageRepoTag(image, t));
  }

  lemma PlainIsTrimmed(s: string)
    requires Plain(s)
    ensures '@' !in s && Trimmed(s)
  {
    hide IsSpace;
  }

  lemma ForwardTrans(pre: Prerelease, a: string, b: string, c: string)
    requires Forward(pre, a, b) && Forward(pre, b, c)
    ensures Forward(pre, a, c)
  {
    hide ParseRef, Parse, SameVariant, IsPrerelease, Less;
    StrictTotalOrder(Parse(ParseRef(a).tag).value, Parse(ParseRef(b).tag).value, Parse(ParseRef(c).tag).value);
    CompatibleTrans(pre, ParseRef(a).tag, ParseRef(b).tag, ParseRef(c).tag);
  }

  /** One scan and the upgrade it may suggest. */
  datatype Scan = Scan(w: World, imageId: string, item: Item)

  function Upgraded(pre: Prerelease, image: string, scan: Scan): string {
    var s := Scanned(scan.w, pre, image, scan.imageId, scan.item).suggested;
    if s == "" then image else s
  }

  function Chain(pre: Prerelease, image: string, scans: seq<Scan>): string {
    if scans == [] then image else Upgraded(pre, Chain(pre, image, scans[..|scans| - 1]), scans[|scans| - 1])
  }

  ghost predicate CleanScan(scan: Scan) {
    scan.item.suggested == "" && forall image :: CleanTags(TagsFor(scan.w, image))
  }

  /** Along any run of scans, with tag lists and digests free to change in between, applying every suggestion
      leaves the image where it was or strictly further on in its own line. */
  lemma {:induction false} ChainIsForward(pre: Prerelease, image: string, scans: seq<Scan>)
    requires Upgradable(image) && forall i :: 0 <= i < |scans| ==> CleanScan(scans[i])
    ensures Upgradable(Chain(pre, image, scans))
    ensures Chain(pre, image, scans) == image || Forward(pre, image, Chain(pre, image, scans))
  {
    if scans != [] {
      var front, scan := scans[..|scans| - 1], scans[|scans| - 1];
      ChainIsForward(pre, image, front);
      var before := Chain(pre, image, front);
      hide Upgradable, Forward, Scanned, TagsFor, CleanTags;
      assert CleanScan(scan);
      assert CleanTags(TagsFor(scan.w, before));
      if Scanned(scan.w, pre, before, scan.imageId, scan.item).suggested != "" {
        SuggestionIsForward(scan.w, pre, before, scan.imageId, scan.item);
        if before != image {
          ForwardTrans(pre, image, before, Upgraded(pre, before, scan));
        }
      }
    }
  }

  /** Scanning again with the same tag list suggests nothing further, whatever the digests now are. */
  lemma NoSecondSuggestion(w: World, w': World, pre: Prerelease, image: string, imageId: string, imageId': string, item: Item, item': Item)
    requires Upgradable(image) && item.suggested == item'.suggested == "" && CleanTags(TagsFor(w, image))
    requires Scanned(w, pre, image, imageId, item).suggested != ""
    requires TagsFor(w', image) == TagsFor(w, image)
    ensures Scanned(w', pre, Scanned(w, pre, image, imageId, item).suggested, imageId', item').suggested == ""
  {
    var s := Scanned(w, pre, image, imageId, item).suggested;
    SuggestionIsForward(w, pre, image, imageId, item);
    var best := ProbeRef(w, pre, image).best;
    assert TagsFor(w', s) == TagsFor(w', image);
    ProbeFacts(w, pre, image);
    SelectedIsStable(pre, ParseRef(image).tag, TagsFor(w, image).value);
    assert ProbeRef(w', pre, s).best == best;
    SuggestedIff(w', pre, s, imageId', item');
    StrictTotalOrder(Parse(best).value, Parse(best).value, Parse(best).value);
    hide ParseRef, ProbeRef, Scanned, Less, Parse, Forward, Upgradable, HighestCompatible;
  }

  /** The file-level guard against crossing a major version. */
  predicate ComposeRefuses(oldImage: string, newImage: string) {
    oldImage != "" && MajorsDiffer(SplitImage(oldImage).tag, SplitImage(newImage).tag)
  }

  /** It refuses a change exactly if both tags are versions and their majors differ; a service without an image
      before has nothing to cross. */
  lemma ComposeRefusesIff(a: string, b: string)
    requires '@' !in a && Trimmed(a) && '@' !in b && Trimmed(b)
    ensures var x, y := Parse(ParseRef(a).tag), Parse(ParseRef(b).tag);
      ComposeRefuses(a, b) <==> a != "" && x.Some? && y.Some? && x.value.major != y.value.major
  {
    TagReadersAgree(a);
    TagReadersAgree(b);
    hide ParseRef, SplitImage, Parse, Trimmed;
  }

  /** It never stands in the way of a suggestion. */
  lemma ComposeAccepts(pre: Prerelease, a: string, b: string)
    requires Upgradable(a) && Upgradable(b) && Forward(pre, a, b)
    ensures !ComposeRefuses(a, b)
  {
    TagReadersAgree(a);
    TagReadersAgree(b);
    hide ParseRef, SplitImage, Parse, SameVariant, IsPrerelease, Less, ReadsBack, Trimmed, Plain;
  }

  /** And the report names both tags as they were compared. */
  lemma ReportNamesTags(pre: Prerelease, a: string, b: string)
    requires Upgradable(a) && Upgradable(b) && Forward(pre, a, b)
    ensures ImageTagOf(a) == ParseRef(a).tag && ImageTagOf(b) == ParseRef(b).tag
  {
    TagReadersAgree(a);
    TagReadersAgree(b);
    LatestIsNoVersion();
    UntaggedIsLatest(a);
    UntaggedIsLatest(b);
    hide ParseRef, ImageTagOf, Parse, SameVariant, IsPrerelease, Less, ReadsBack, Plain, HasTag;
  }

  lemma LatestIsNoVersion()
    ensures Parse("latest").None?
  {
    hide Recognise, HasPrefix, HasSuffix, TrimSpace;
    TrimSpaceFixed("latest");
    assert ToLower("latest") == "latest";
  }

  lemma UntaggedIsLatest(ref: string)
    ensures !HasTag(ref) && '@' !in ref && Trimmed(ref) ==> ParseRef(ref).tag == "latest"
  {
    if '@' !in ref && Trimmed(ref) {
      TrimSpaceFixed(ref);
      hide LastIndex, Named, TrimSpace;
      assert StripDigest(ref) == ref;
    }
  }
}
