/** Locating one instruction in the mapped client image by its surroundings and rewriting it in
    memory (esptool/src/esp/EspEnforceCompat.h, esptool/src/esp/EspEnforceCompat.cpp).

    An image is its bytes; section headers, page protection and the module lookup are inputs.
    `Sites` is the reference meaning of the search: the positions that are valid in some
    executable section. The theorems are about overlap: six bytes are rewritten, and every
    pattern the search looks at may overlap them. */
module EnforceCompat {
  import opened Sequences
  import opened Wrappers

  newtype byte = x: int | 0 <= x < 256

  const ORIGINAL: seq<byte> := [0x81, 0xFA, 0xD0, 0x07, 0x00, 0x00]
  const PATCHED: seq<byte> := [0x39, 0xD2, 0x90, 0x90, 0x90, 0x90]
  const PRECEDING_ANCHOR: seq<byte> := [0x81, 0xFA, 0x3F, 0x1F, 0x00, 0x00]
  const FOLLOWING_ANCHOR: seq<byte> := [0x81, 0xFA, 0xBF, 0x0B, 0x00, 0x00]
  const PATCH_BYTES := 6
  const PRECEDING_MAX_DISTANCE := 16
  const FOLLOWING_MAX_DISTANCE := 24
  const HINTS: seq<nat> := [0x48515, 0x49C27]

  /** An executable section: its first byte and its length. */
  datatype Section = Section(rva: nat, size: nat)

  predicate Inside(sections: seq<Section>, imageSize: nat) {
    forall k :: 0 <= k < |sections| ==> sections[k].rva + sections[k].size <= imageSize
  }

  // ---------------------------------------------------------------- valid sites

  predicate At(image: seq<byte>, p: int, pattern: seq<byte>) {
    0 <= p && p + |pattern| <= |image| && image[p..p + |pattern|] == pattern
  }

  /** Length of the conditional jump after the candidate, or 0 if there is none. */
  function JumpLength(image: seq<byte>, next: nat, end: nat): nat
    requires next + 2 <= end <= |image|
  {
    if image[next] == 0x74 then 2
    else if next + 6 <= end && image[next] == 0x0F && image[next + 1] == 0x84 then 6
    else 0
  }

  predicate Precedes(image: seq<byte>, p: int, site: nat, start: nat) {
    start <= p && site - PRECEDING_MAX_DISTANCE <= p && p + PATCH_BYTES <= site && At(image, p, PRECEDING_ANCHOR)
  }

  predicate Follows(image: seq<byte>, p: int, from: nat, end: nat) {
    from <= p && p + PATCH_BYTES <= end && p + PATCH_BYTES <= from + FOLLOWING_MAX_DISTANCE
    && At(image, p, FOLLOWING_ANCHOR)
  }

  ghost predicate HasPreceding(image: seq<byte>, site: nat, start: nat) {
    exists p :: Precedes(image, p, site, start)
  }

  ghost predicate HasFollowing(image: seq<byte>, from: nat, end: nat) {
    exists p :: Follows(image, p, from, end)
  }

  /** A position between both anchors that holds the compare, patched or not, before a jump. */
  ghost predicate ValidSite(image: seq<byte>, site: nat, start: nat, end: nat)
    requires end <= |image|
  {
    start <= site && site + PATCH_BYTES + 2 <= end
    && (At(image, site, ORIGINAL) || At(image, site, PATCHED))
    && HasPreceding(image, site, start)
    && (var jump := JumpLength(image, site + PATCH_BYTES, end);
        jump > 0 && HasFollowing(image, site + PATCH_BYTES + jump, end))
  }

  ghost predicate ValidIn(image: seq<byte>, site: nat, section: Section) {
    section.rva + section.size <= |image| && ValidSite(image, site, section.rva, section.rva + section.size)
  }

  /** The source's check, with its two bounded anchor scans. */
  method ValidateCandidateSite(image: array<byte>, candidate: nat, start: nat, end: nat) returns (valid: bool)
    requires end <= image.Length
    ensures valid <==> ValidSite(image[..], candidate, start, end)
  {
    if candidate < start || candidate + PATCH_BYTES + 2 > end {
      return false;
    }
    var bytes := image[candidate..candidate + PATCH_BYTES];
    assert bytes == image[..][candidate..candidate + PATCH_BYTES];
    if bytes != ORIGINAL && bytes != PATCHED {
      return false;
    }
    var next := candidate + PATCH_BYTES;
    var jump := 0;
    if image[next] == 0x74 {
      jump := 2;
    } else if next + 6 <= end && image[next] == 0x0F && image[next + 1] == 0x84 {
      jump := 6;
    }
    assert jump == JumpLength(image[..], next, end);
    if jump == 0 {
      return false;
    }
    var found := FindPreceding(image, candidate, start);
    if !found {
      return false;
    }
    valid := FindFollowing(image, next + jump, end);
  }

  /** The window before the site. */
  method FindPreceding(image: array<byte>, candidate: nat, start: nat) returns (found: bool)
    requires start <= candidate <= image.Length
    ensures found <==> HasPreceding(image[..], candidate, start)
  {
    var lookback := if candidate - start < PRECEDING_MAX_DISTANCE then candidate - start else PRECEDING_MAX_DISTANCE;
    found := ScanFor(image, PRECEDING_ANCHOR, candidate - lookback, candidate);
    if found {
      var p :| candidate - lookback <= p <= candidate - 6 && At(image[..], p, PRECEDING_ANCHOR);
      assert Precedes(image[..], p, candidate, start);
    }
  }

  /** The window after the jump. */
  method FindFollowing(image: array<byte>, ahead: nat, end: nat) returns (found: bool)
    requires end <= image.Length
    ensures found <==> HasFollowing(image[..], ahead, end)
  {
    if ahead + |FOLLOWING_ANCHOR| > end {
      return false;
    }
    var lookahead := if end - ahead < FOLLOWING_MAX_DISTANCE then end - ahead else FOLLOWING_MAX_DISTANCE;
    found := ScanFor(image, FOLLOWING_ANCHOR, ahead, ahead + lookahead);
    if found {
      var p :| ahead <= p <= ahead + lookahead - 6 && At(image[..], p, FOLLOWING_ANCHOR);
      assert Follows(image[..], p, ahead, end);
    }
  }

  /** One anchor loop: is `pattern` somewhere in [from, to)? */
  method ScanFor(image: array<byte>, pattern: seq<byte>, from: nat, to: nat) returns (found: bool)
    requires to <= image.Length && |pattern| == PATCH_BYTES
    ensures found <==> exists p :: from <= p <= to - PATCH_BYTES && At(image[..], p, pattern)
  {
    var p := from;
    while p + |pattern| <= to
      invariant from <= p
      invariant forall k :: from <= k < p && k <= to - PATCH_BYTES ==> !At(image[..], k, pattern)
    {
      assert image[p..p + |pattern|] == image[..][p..p + |pattern|];
      if image[p..p + |pattern|] == pattern {
        assert At(image[..], p, pattern);
        return true;
      }
      p := p + 1;
    }
    return false;
  }

  // ---------------------------------------------------------------- the search

  datatype Located = NotFound | Found(rva: nat) | Ambiguous(matches: nat)

  /** The section the hint check uses: the first that holds the six bytes. */
  predicate Holds(section: Section, rva: nat) {
    section.rva <= rva && rva + PATCH_BYTES <= section.rva + section.size
  }

  ghost predicate HintMatches(image: seq<byte>, sections: seq<Section>, hint: nat) {
    hint + PATCH_BYTES <= |image| &&
    exists k: nat :: FirstHolder(sections, hint, k) && ValidIn(image, hint, sections[k])
  }

  predicate FirstHolder(sections: seq<Section>, rva: nat, k: nat) {
    k < |sections| && Holds(sections[k], rva) && forall j :: 0 <= j < k ==> !Holds(sections[j], rva)
  }

  ghost predicate IsSite(image: seq<byte>, sections: seq<Section>, site: nat) {
    exists k :: 0 <= k < |sections| && ValidIn(image, site, sections[k])
  }

  ghost function Sites(image: seq<byte>, sections: seq<Section>): set<nat> {
    set site | 0 <= site < |image| && IsSite(image, sections, site)
  }

  ghost function HintSites(image: seq<byte>, sections: seq<Section>): set<nat> {
    set hint | hint in HINTS && HintMatches(image, sections, hint)
  }

  /** What the search compares against one: the hints that validate, else every site. */
  ghost function Candidates(image: seq<byte>, sections: seq<Section>): set<nat> {
    if HintSites(image, sections) != {} then HintSites(image, sections) else Sites(image, sections)
  }

  ghost predicate Locates(image: seq<byte>, sections: seq<Section>, r: Located) {
    var c := Candidates(image, sections);
    match r
    case NotFound => c == {}
    case Found(rva) => c == {rva}
    case Ambiguous(n) => n == |c| && n > 1
  }

  predicate NoDuplicates<T(==)>(s: seq<T>) {
    forall i, j :: 0 <= i < j < |s| ==> s[i] != s[j]
  }

  lemma {:induction false} DistinctSize<T>(s: seq<T>)
    requires NoDuplicates(s)
    ensures |Elements(s)| == |s|
  {
    if s != [] {
      var front := s[..|s| - 1];
      DistinctSize(front);
      assert s[|s| - 1] !in front && s == front + [s[|s| - 1]];
      assert Elements(s) == Elements(front) + {s[|s| - 1]};
    }
  }

  lemma NextHint(h: nat)
    requires h < |HINTS|
    ensures HINTS[..h + 1] == HINTS[..h] + [HINTS[h]] && HINTS[h] !in HINTS[..h]
  {}

  /** The hint loop: the hints that validate, in order. */
  method CheckHints(image: array<byte>, sections: seq<Section>) returns (matches: seq<nat>)
    requires Inside(sections, image.Length)
    ensures NoDuplicates(matches) && Elements(matches) == HintSites(image[..], sections)
  {
    matches := [];
    for h := 0 to |HINTS|
      invariant NoDuplicates(matches)
      invariant forall m :: m in matches <==> m in HINTS[..h] && HintMatches(image[..], sections, m)
    {
      var hint := HINTS[h];
      NextHint(h);
      if hint + PATCH_BYTES <= image.Length {
        var k := 0;
        while k < |sections| && !Holds(sections[k], hint)
          invariant 0 <= k <= |sections|
          invariant forall j :: 0 <= j < k ==> !Holds(sections[j], hint)
        {
          k := k + 1;
        }
        if k < |sections| {
          var valid := ValidateCandidateSite(image, hint, sections[k].rva, sections[k].rva + sections[k].size);
          assert FirstHolder(sections, hint, k);
          if valid {
            matches := matches + [hint];
          }
        }
      }
    }
    assert HINTS[..|HINTS|] == HINTS;
  }

  /** The full scan: every site, once. */
  method ScanSections(image: array<byte>, sections: seq<Section>) returns (matches: seq<nat>)
    requires Inside(sections, image.Length)
    ensures NoDuplicates(matches) && Elements(matches) == Sites(image[..], sections)
  {
    matches := [];
    for k := 0 to |sections|
      invariant NoDuplicates(matches)
      invariant forall m :: m in matches <==> exists j :: 0 <= j < k && ValidIn(image[..], m, sections[j])
    {
      matches := ScanSection(image, sections[k], matches);
    }
    forall m | m in matches ensures m in Sites(image[..], sections) {}
  }

  /** The scan of one section adds its sites that are not there yet. */
  method ScanSection(image: array<byte>, section: Section, before: seq<nat>) returns (matches: seq<nat>)
    requires section.rva + section.size <= image.Length && NoDuplicates(before)
    ensures NoDuplicates(matches)
    ensures forall m :: m in matches <==> m in before || ValidIn(image[..], m, section)
  {
    matches := before;
    var start, end := section.rva, section.rva + section.size;
    if section.size >= PATCH_BYTES + 2 {
      var p := start;
      while p + PATCH_BYTES + 2 <= end
        invariant start <= p
        invariant NoDuplicates(matches)
        invariant forall m: nat :: m in matches <==> m in before || (m < p && ValidIn(image[..], m, section))
      {
        var valid := ValidateCandidateSite(image, p, start, end);
        if valid && p !in matches {
          matches := matches + [p];
        }
        p := p + 1;
      }
    }
  }

  /** The search reports exactly what its candidates say. Without a validating hint, a position it
      finds is the only valid one. */
  method FindFromFfiPatchSite(image: array<byte>, sections: seq<Section>) returns (r: Located)
    requires Inside(sections, image.Length)
    ensures Locates(image[..], sections, r)
    ensures r.NotFound? <==> Sites(image[..], sections) == {}
    ensures r.Found? ==> r.rva in Sites(image[..], sections)
    ensures r.Found? ==> (Sites(image[..], sections) == {r.rva} <==> OnlyHints(image[..], sections))
    ensures HintSites(image[..], sections) == {} ==>
      forall site: nat :: r == Found(site) <==> Sites(image[..], sections) == {site}
  {
    ghost var bytes := image[..];
    r := SearchCandidates(image, sections);
    forall site: nat | Locates(bytes, sections, Found(site)) ensures r == Found(site) {
      LocationIsUnique(bytes, sections, r);
    }
    forall site: nat ensures HintSites(bytes, sections) == {} ==> (r == Found(site) <==> Sites(bytes, sections) == {site}) {
      FoundIsUniqueExactlyWhen(bytes, sections, site);
    }
    if r.Found? {
      FoundIsUniqueExactlyWhen(bytes, sections, r.rva);
    }
  }

  /** The hints first, then every section; and the three ways to report. */
  method SearchCandidates(image: array<byte>, sections: seq<Section>) returns (r: Located)
    requires Inside(sections, image.Length)
    ensures Locates(image[..], sections, r)
    ensures r.NotFound? <==> Sites(image[..], sections) == {}
    ensures r.Found? ==> r.rva in Sites(image[..], sections)
  {
    var matches := CheckHints(image, sections);
    HintsAreSites(image[..], sections);
    if matches == [] {
      matches := ScanSections(image, sections);
    }
    assert Elements(matches) == Candidates(image[..], sections) by {
      if matches != [] {
        assert matches[0] in Elements(matches);
      }
    }
    DistinctSize(matches);
    SmallSet(matches);
    if matches == [] {
      return NotFound;
    }
    if |matches| > 1 {
      return Ambiguous(|matches|);
    }
    return Found(matches[0]);
  }

  lemma SmallSet(s: seq<nat>)
    ensures s == [] ==> Elements(s) == {}
    ensures |s| == 1 ==> Elements(s) == {s[0]}
    ensures s != [] ==> s[0] in Elements(s)
  {}

  lemma HintsAreSites(image: seq<byte>, sections: seq<Section>)
    ensures HintSites(image, sections) <= Sites(image, sections)
  {
    forall hint | hint in HintSites(image, sections) ensures hint in Sites(image, sections) {
      var k: nat :| FirstHolder(sections, hint, k) && ValidIn(image, hint, sections[k]);
      assert IsSite(image, sections, hint);
    }
  }

  /** No hint validates, or no other position is valid. */
  ghost predicate OnlyHints(image: seq<byte>, sections: seq<Section>) {
    HintSites(image, sections) == {} || Sites(image, sections) <= HintSites(image, sections)
  }

  /** What a reported position says about the whole image. Without a validating hint it is the only
      valid one, which is what a caller may rely on. After one, the search has not looked elsewhere:
      that the position is the only one is then no more than that nothing but a hint is valid, which
      a caller cannot tell from the answer. The comment in the source speaks of global uniqueness,
      but a hint that validates ends the search. */
  lemma FoundIsUniqueExactlyWhen(image: seq<byte>, sections: seq<Section>, site: nat)
    ensures HintSites(image, sections) == {} ==>
      (Locates(image, sections, Found(site)) <==> Sites(image, sections) == {site})
    ensures Locates(image, sections, Found(site)) ==>
      (Sites(image, sections) == {site} <==> OnlyHints(image, sections))
  {
    HintsAreSites(image, sections);
  }

  const BLOCK: seq<byte> := PRECEDING_ANCHOR + ORIGINAL + [0x74, 0] + FOLLOWING_ANCHOR
  const FIRST_BLOCK := 94
  const HINTED_BLOCK := 0x48515 - PATCH_BYTES

  /** An image with the same block of bytes around a hint and at another place. */
  function TwoBlocks(): seq<byte> {
    seq(0x48600, i requires 0 <= i < 0x48600 =>
      if FIRST_BLOCK <= i < FIRST_BLOCK + |BLOCK| then BLOCK[i - FIRST_BLOCK]
      else if HINTED_BLOCK <= i < HINTED_BLOCK + |BLOCK| then BLOCK[i - HINTED_BLOCK]
      else 0)
  }

  lemma BlockIsSite(image: seq<byte>, p: nat, section: Section)
    requires section.rva <= p && p + |BLOCK| <= section.rva + section.size <= |image|
    requires image[p..p + |BLOCK|] == BLOCK
    ensures ValidIn(image, p + PATCH_BYTES, section)
  {
    var end := section.rva + section.size;
    var block := image[p..p + |BLOCK|];
    assert forall k :: 0 <= k < |BLOCK| ==> block[k] == image[p + k];
    assert image[p..p + 6] == block[..6] == PRECEDING_ANCHOR;
    assert image[p + 6..p + 12] == block[6..12] == ORIGINAL;
    assert image[p + 14..p + 20] == block[14..20] == FOLLOWING_ANCHOR;
    assert At(image, p, PRECEDING_ANCHOR) && At(image, p + 6, ORIGINAL) && At(image, p + 14, FOLLOWING_ANCHOR);
    assert Precedes(image, p, p + 6, section.rva);
    assert JumpLength(image, p + 12, end) == 2;
    assert Follows(image, p + 14, p + 14, end);
  }

  /** The search reports the hint, though another position is valid too. */
  lemma HintHidesAnotherSite()
    ensures var sections := [Section(0, 0x48600)];
      Inside(sections, |TwoBlocks()|) && Locates(TwoBlocks(), sections, Found(0x48515))
      && 0x48515 in Sites(TwoBlocks(), sections) && FIRST_BLOCK + PATCH_BYTES in Sites(TwoBlocks(), sections)
  {
    var image, section := TwoBlocks(), Section(0, 0x48600);
    var sections := [section];
    assert image[FIRST_BLOCK..FIRST_BLOCK + |BLOCK|] == BLOCK;
    assert image[HINTED_BLOCK..HINTED_BLOCK + |BLOCK|] == BLOCK;
    BlockIsSite(image, FIRST_BLOCK, section);
    BlockIsSite(image, HINTED_BLOCK, section);
    assert IsSite(image, sections, FIRST_BLOCK + PATCH_BYTES) && IsSite(image, sections, HINTED_BLOCK + PATCH_BYTES);
    assert FirstHolder(sections, 0x48515, 0);
    assert HINTS[0] == 0x48515 && HintMatches(image, sections, 0x48515);
    forall hint | hint in HINTS && hint != 0x48515 ensures !HintMatches(image, sections, hint) {
      assert hint == 0x49C27;
    }
    assert HintSites(image, sections) == {0x48515};
  }

  // ---------------------------------------------------------------- overlap

  function Patch(image: seq<byte>, site: nat): (r: seq<byte>)
    requires site + PATCH_BYTES <= |image|
    ensures |r| == |image|
  {
    image[..site] + PATCHED + image[site + PATCH_BYTES..]
  }

  lemma PatchBytes(image: seq<byte>, site: nat, i: nat)
    requires site + PATCH_BYTES <= |image| && i < |image|
    ensures Patch(image, site)[i] == if site <= i < site + PATCH_BYTES then PATCHED[i - site] else image[i]
  {}

  lemma AnchorSharesNoByte(anchor: seq<byte>, i: nat)
    requires anchor == PRECEDING_ANCHOR || anchor == FOLLOWING_ANCHOR
    requires i < PATCH_BYTES
    ensures anchor[i] != 0x39 && anchor[i] != 0xD2 && anchor[i] != 0x90
  {}

  /** No anchor shares a byte with the patched instruction, so an anchor found afterwards lies
      clear of it and was there before. */
  lemma AnchorsAvoidPatch(image: seq<byte>, site: nat, p: int, anchor: seq<byte>)
    requires site + PATCH_BYTES <= |image|
    requires anchor == PRECEDING_ANCHOR || anchor == FOLLOWING_ANCHOR
    requires At(Patch(image, site), p, anchor)
    ensures At(image, p, anchor)
  {
    var after := Patch(image, site);
    forall i | 0 <= i < 6 ensures after[p + i] == image[p + i] && after[p + i] == anchor[i] {
      assert after[p..p + 6][i] == after[p + i];
      PatchBytes(image, site, p + i);
      AnchorSharesNoByte(anchor, i);
    }
    assert image[p..p + 6] == anchor;
  }

  lemma ClearBytesStay(image: seq<byte>, site: nat, p: int, pattern: seq<byte>)
    requires site + PATCH_BYTES <= |image| && |pattern| == PATCH_BYTES
    requires p + PATCH_BYTES <= site || site + PATCH_BYTES <= p
    ensures At(Patch(image, site), p, pattern) <==> At(image, p, pattern)
  {
    if 0 <= p && p + PATCH_BYTES <= |image| {
      var after := Patch(image, site);
      forall i | p <= i < p + PATCH_BYTES ensures after[i] == image[i] {
        PatchBytes(image, site, i);
      }
      assert after[p..p + PATCH_BYTES] == image[p..p + PATCH_BYTES];
    }
  }

  /** A compare, patched or not, that overlaps the patch site is at the site itself. */
  lemma CompareAvoidsPatch(image: seq<byte>, site: nat, q: nat)
    requires site + PATCH_BYTES <= |image| && q != site
    requires At(Patch(image, site), q, ORIGINAL) || At(Patch(image, site), q, PATCHED)
    ensures q + PATCH_BYTES <= site || site + PATCH_BYTES <= q
  {
    PatchTwice(image, site);
    if q < site + PATCH_BYTES && site < q + PATCH_BYTES {
      PatchedSharesNoByte(Patch(image, site), site, q);
    }
  }

  /** No compare, patched or not, overlaps a patched one. */
  lemma PatchedSharesNoByte(image: seq<byte>, site: nat, q: nat)
    requires site + PATCH_BYTES <= |image| && At(image, site, PATCHED)
    requires q != site && q < site + PATCH_BYTES && site < q + PATCH_BYTES
    ensures !At(image, q, ORIGINAL) && !At(image, q, PATCHED)
  {
    if q + PATCH_BYTES <= |image| {
      var first := if q < site then site else q;
      assert image[site..site + 6][first - site] == image[first] == image[q..q + 6][first - q];
      assert ORIGINAL[first - q] != PATCHED[first - site] && PATCHED[first - q] != PATCHED[first - site];
    }
  }

  lemma JumpStays(image: seq<byte>, site: nat, next: nat, end: nat)
    requires site + PATCH_BYTES <= |image| && next + 2 <= end <= |image|
    requires site + PATCH_BYTES <= next
    ensures JumpLength(Patch(image, site), next, end) == JumpLength(image, next, end)
  {
    PatchBytes(image, site, next);
    PatchBytes(image, site, next + 1);
  }

  lemma AnchorsStay(image: seq<byte>, site: nat, start: nat, from: nat, end: nat)
    requires site + PATCH_BYTES <= from <= |image|
    ensures HasPreceding(image, site, start) ==> HasPreceding(Patch(image, site), site, start)
    ensures HasFollowing(image, from, end) ==> HasFollowing(Patch(image, site), from, end)
  {
    var after := Patch(image, site);
    if p :| Precedes(image, p, site, start) {
      ClearBytesStay(image, site, p, PRECEDING_ANCHOR);
      assert Precedes(after, p, site, start);
    }
    if f :| Follows(image, f, from, end) {
      ClearBytesStay(image, site, f, FOLLOWING_ANCHOR);
      assert Follows(after, f, from, end);
    }
  }

  lemma AnchorsWereThere(image: seq<byte>, site: nat, q: nat, start: nat, from: nat, end: nat)
    requires site + PATCH_BYTES <= |image|
    ensures HasPreceding(Patch(image, site), q, start) ==> HasPreceding(image, q, start)
    ensures HasFollowing(Patch(image, site), from, end) ==> HasFollowing(image, from, end)
  {
    var after := Patch(image, site);
    if p :| Precedes(after, p, q, start) {
      AnchorsAvoidPatch(image, site, p, PRECEDING_ANCHOR);
      assert Precedes(image, p, q, start);
    }
    if f :| Follows(after, f, from, end) {
      AnchorsAvoidPatch(image, site, f, FOLLOWING_ANCHOR);
      assert Follows(image, f, from, end);
    }
  }

  /** The located site stays valid when it is patched. */
  lemma PatchKeepsSite(image: seq<byte>, site: nat, start: nat, end: nat)
    requires end <= |image| && ValidSite(image, site, start, end)
    ensures ValidSite(Patch(image, site), site, start, end)
  {
    var after := Patch(image, site);
    assert after[site..site + 6] == PATCHED;
    JumpStays(image, site, site + PATCH_BYTES, end);
    AnchorsStay(image, site, start, site + PATCH_BYTES + JumpLength(image, site + PATCH_BYTES, end), end);
  }

  /** A position that is valid after the patch was valid before it, even when the windows the
      check reads overlap the rewritten bytes. */
  lemma PatchMakesNoSite(image: seq<byte>, site: nat, q: nat, start: nat, end: nat)
    requires end <= |image| && site + PATCH_BYTES <= |image|
    requires q == site ==> At(image, site, ORIGINAL)
    requires ValidSite(Patch(image, site), q, start, end)
    ensures ValidSite(image, q, start, end)
  {
    if q != site {
      CompareAvoidsPatch(image, site, q);
      ClearBytesStay(image, site, q, ORIGINAL);
      ClearBytesStay(image, site, q, PATCHED);
    }
    JumpWasThere(image, site, q, end);
    AnchorsWereThere(image, site, q, start, q + PATCH_BYTES + JumpLength(image, q + PATCH_BYTES, end), end);
  }

  /** The patched bytes are no jump either. */
  lemma JumpWasThere(image: seq<byte>, site: nat, q: nat, end: nat)
    requires site + PATCH_BYTES <= |image| && q + PATCH_BYTES + 2 <= end <= |image|
    requires q == site || q + PATCH_BYTES <= site || site + PATCH_BYTES <= q
    requires JumpLength(Patch(image, site), q + PATCH_BYTES, end) > 0
    ensures JumpLength(image, q + PATCH_BYTES, end) == JumpLength(Patch(image, site), q + PATCH_BYTES, end)
  {
    PatchBytes(image, site, q + 6);
    PatchBytes(image, site, q + 7);
  }

  lemma PatchKeepsValidIn(image: seq<byte>, section: Section, site: nat)
    requires ValidIn(image, site, section)
    ensures site + PATCH_BYTES <= |image| && ValidIn(Patch(image, site), site, section)
  {
    PatchKeepsSite(image, site, section.rva, section.rva + section.size);
  }

  lemma PatchMakesNoValidIn(image: seq<byte>, section: Section, site: nat, q: nat)
    requires site + PATCH_BYTES <= |image|
    requires q == site ==> At(image, site, ORIGINAL)
    ensures ValidIn(Patch(image, site), q, section) ==> ValidIn(image, q, section)
  {
    if ValidIn(Patch(image, site), q, section) {
      PatchMakesNoSite(image, site, q, section.rva, section.rva + section.size);
    }
  }

  /** Patching a site keeps it and makes no other position valid, in any section. */
  lemma PatchOnlyRemovesSites(image: seq<byte>, sections: seq<Section>, site: nat)
    requires site in Sites(image, sections) && site + PATCH_BYTES <= |image| && At(image, site, ORIGINAL)
    ensures site in Sites(Patch(image, site), sections)
    ensures Sites(Patch(image, site), sections) <= Sites(image, sections)
  {
    var after := Patch(image, site);
    var k :| 0 <= k < |sections| && ValidIn(image, site, sections[k]);
    PatchKeepsValidIn(image, sections[k], site);
    assert IsSite(after, sections, site);
    forall q | q in Sites(after, sections) ensures q in Sites(image, sections) {
      var j :| 0 <= j < |sections| && ValidIn(after, q, sections[j]);
      PatchMakesNoValidIn(image, sections[j], site, q);
      assert IsSite(image, sections, q);
    }
  }

  lemma PatchOnlyRemovesHints(image: seq<byte>, sections: seq<Section>, site: nat)
    requires site + PATCH_BYTES <= |image| && At(image, site, ORIGINAL)
    ensures site in HintSites(image, sections) ==> site in HintSites(Patch(image, site), sections)
    ensures HintSites(Patch(image, site), sections) <= HintSites(image, sections)
  {
    var after := Patch(image, site);
    if site in HintSites(image, sections) {
      var k: nat :| FirstHolder(sections, site, k) && ValidIn(image, site, sections[k]);
      PatchKeepsValidIn(image, sections[k], site);
      assert HintMatches(after, sections, site);
    }
    forall q | q in HintSites(after, sections) ensures q in HintSites(image, sections) {
      var k: nat :| FirstHolder(sections, q, k) && ValidIn(after, q, sections[k]);
      PatchMakesNoValidIn(image, sections[k], site, q);
      assert HintMatches(image, sections, q);
    }
  }

  /** After the patch the search locates the same position again. */
  lemma PatchIsLocatedAgain(image: seq<byte>, sections: seq<Section>, site: nat)
    requires Inside(sections, |image|) && site + PATCH_BYTES <= |image| && At(image, site, ORIGINAL)
    requires Locates(image, sections, Found(site))
    ensures Locates(Patch(image, site), sections, Found(site))
  {
    HintsAreSites(image, sections);
    assert site in Candidates(image, sections);
    PatchOnlyRemovesSites(image, sections, site);
    PatchOnlyRemovesHints(image, sections, site);
    var after := Patch(image, site);
    if HintSites(image, sections) != {} {
      assert HintSites(after, sections) == {site};
    } else {
      assert HintSites(after, sections) == {};
      assert Sites(after, sections) == {site};
    }
  }

  // ---------------------------------------------------------------- the transaction

  datatype PatchError = IncompleteHooks | NotLoaded | BadHeaders | NotLocated(r: Located) | ForeignBytes
    | ProtectFailed | RestoreFailed

  /** The answers of the operating system: were the hooks set, did the headers parse, and did
      the two protection changes succeed. */
  datatype Platform = Platform(hooks: bool, sections: Option<seq<Section>>, protect: bool, restore: bool)

  /** When the patch is reported as applied, and at which position. */
  ghost predicate Applies(image: seq<byte>, platform: Platform, site: nat) {
    platform.hooks && platform.sections.Some? && Locates(image, platform.sections.value, Found(site))
    && (At(image, site, PATCHED) || (platform.protect && platform.restore))
  }

  method CopyBytes(image: array<byte>, target: nat, bytes: seq<byte>)
    requires target + |bytes| <= image.Length
    modifies image
    ensures image[..] == old(image[..target]) + bytes + old(image[target + |bytes|..])
  {
    for i := 0 to |bytes|
      invariant image[..] == old(image[..target]) + bytes[..i] + old(image[target + i..])
    {
      image[target + i] := bytes[i];
    }
  }

  ghost predicate CanApply(image: seq<byte>, platform: Platform) {
    exists site: nat :: Applies(image, platform, site)
  }

  ghost predicate Applied(before: seq<byte>, after: seq<byte>, platform: Platform) {
    exists site: nat :: site + PATCH_BYTES <= |before| && Applies(before, platform, site) && after == Patch(before, site)
  }

  /** The write at a located site: the bytes are rewritten and, when the protection cannot be
      restored, put back. */
  method RewriteSite(image: array<byte>, site: nat, platform: Platform) returns (error: Option<PatchError>)
    requires site + PATCH_BYTES <= image.Length
    modifies image
    ensures error.None? <==>
      old(At(image[..], site, PATCHED)) || (old(At(image[..], site, ORIGINAL)) && platform.protect && platform.restore)
    ensures image[..] == if error.None? then Patch(old(image[..]), site) else old(image[..])
  {
    ghost var before := image[..];
    var current := image[site..site + PATCH_BYTES];
    assert current == before[site..site + PATCH_BYTES];
    assert before == before[..site] + current + before[site + PATCH_BYTES..];
    if current == PATCHED {
      return None;
    }
    if current != ORIGINAL {
      return Some(ForeignBytes);
    }
    if !platform.protect {
      return Some(ProtectFailed);
    }
    CopyBytes(image, site, PATCHED);
    if !platform.restore {
      CopyBytes(image, site, current);
      return Some(RestoreFailed);
    }
    return None;
  }

  /** All or nothing: a failure leaves every byte as it was, a success rewrites the six bytes of
      the located site and nothing else, and success happens exactly when `CanApply` says. */
  method ApplyFromFfiCompatPatch(image: array?<byte>, platform: Platform) returns (error: Option<PatchError>)
    requires image != null && platform.sections.Some? ==> Inside(platform.sections.value, image.Length)
    modifies image
    ensures image == null ==> error.Some?
    ensures image != null && error.Some? ==> image[..] == old(image[..]) && !CanApply(old(image[..]), platform)
    ensures image != null && error.None? ==> Applied(old(image[..]), image[..], platform)
  {
    if !platform.hooks {
      return Some(IncompleteHooks);
    }
    if image == null {
      return Some(NotLoaded);
    }
    if platform.sections.None? {
      return Some(BadHeaders);
    }
    ghost var before := image[..];
    var located := FindFromFfiPatchSite(image, platform.sections.value);
    LocationIsUnique(before, platform.sections.value, located);
    if !located.Found? {
      return Some(NotLocated(located));
    }
    SiteBytes(before, platform.sections.value, located.rva);
    error := RewriteSite(image, located.rva, platform);
    if error.None? {
      assert Applies(before, platform, located.rva);
    }
  }

  lemma LocationIsUnique(image: seq<byte>, sections: seq<Section>, r: Located)
    requires Locates(image, sections, r)
    ensures forall site: nat :: Locates(image, sections, Found(site)) ==> r == Found(site)
  {
    forall site: nat | Locates(image, sections, Found(site)) ensures r == Found(site) {
      assert site in Candidates(image, sections);
    }
  }

  lemma SiteBytes(image: seq<byte>, sections: seq<Section>, site: nat)
    requires site in Sites(image, sections)
    ensures site + PATCH_BYTES <= |image| && (At(image, site, ORIGINAL) || At(image, site, PATCHED))
  {}

  /** The second application: it locates the same site, succeeds whatever the protection calls
      would answer, and changes nothing. */
  lemma PatchIsIdempotent(image: seq<byte>, first: Platform, second: Platform, site: nat)
    requires first.sections.Some? && Inside(first.sections.value, |image|)
    requires second.hooks && second.sections == first.sections
    requires Applies(image, first, site)
    ensures site + PATCH_BYTES <= |image|
    ensures Applies(Patch(image, site), second, site)
    ensures forall s :: Applies(Patch(image, site), second, s) ==> s == site
    ensures Patch(Patch(image, site), site) == Patch(image, site)
  {
    var sections := first.sections.value;
    HintsAreSites(image, sections);
    assert site in Candidates(image, sections);
    SiteBytes(image, sections, site);
    if At(image, site, PATCHED) {
      PatchedIsUnchanged(image, site);
    } else {
      PatchIsLocatedAgain(image, sections, site);
    }
    PatchTwice(image, site);
    LocatesOne(Patch(image, site), sections, site);
  }

  lemma PatchedIsUnchanged(image: seq<byte>, site: nat)
    requires site + PATCH_BYTES <= |image| && At(image, site, PATCHED)
    ensures Patch(image, site) == image
  {}

  lemma PatchTwice(image: seq<byte>, site: nat)
    requires site + PATCH_BYTES <= |image|
    ensures At(Patch(image, site), site, PATCHED) && Patch(Patch(image, site), site) == Patch(image, site)
  {
    assert Patch(image, site)[site..site + 6] == PATCHED;
  }

  /** A search has one answer. */
  lemma LocatesOne(image: seq<byte>, sections: seq<Section>, site: nat)
    requires Locates(image, sections, Found(site))
    ensures forall s :: Locates(image, sections, Found(s)) ==> s == site
  {
    forall s | Locates(image, sections, Found(s)) ensures s == site {
      assert s in {site};
    }
  }
}
