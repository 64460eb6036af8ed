/** The sites of the compat patch in bytes (esptool/src/esp/EspEnforceCompat.h,
    esptool/src/esp/EspEnforceCompat.cpp): what is a valid site, on which images of the builds it was
    measured on the search finds one, and what the patch writes. */
module EnforceSites {
  import opened EnforceCompat

  /** Six bytes of the image, or none at its end. */
  function Six(image: seq<byte>, p: int): seq<byte> {
    if 0 <= p && p + 6 <= |image| then image[p..p + 6] else []
  }

  lemma SixIsAt(image: seq<byte>, p: int, pattern: seq<byte>)
    requires |pattern| == 6
    ensures At(image, p, pattern) <==> Six(image, p) == pattern
  {}

  /** The compare with 7999, from 16 to 6 bytes before the site, within the section. */
  ghost predicate AnchoredBefore(image: seq<byte>, site: nat, start: nat) {
    exists p :: start <= p && site - 16 <= p <= site - 6 && Six(image, p) == [0x81, 0xFA, 0x3F, 0x1F, 0x00, 0x00]
  }

  /** The compare with 3007, up to 18 bytes behind the jump, within the section. */
  ghost predicate AnchoredBehind(image: seq<byte>, from: nat, end: nat) {
    exists p :: from <= p <= from + 18 && p + 6 <= end && Six(image, p) == [0x81, 0xFA, 0xBF, 0x0B, 0x00, 0x00]
  }

  lemma PrecedingExactlyWhen(image: seq<byte>, site: nat, start: nat)
    ensures HasPreceding(image, site, start) <==> AnchoredBefore(image, site, start)
  {
    if p :| Precedes(image, p, site, start) {
      SixIsAt(image, p, PRECEDING_ANCHOR);
    }
    if p :| start <= p && site - 16 <= p <= site - 6 && Six(image, p) == [0x81, 0xFA, 0x3F, 0x1F, 0x00, 0x00] {
      SixIsAt(image, p, PRECEDING_ANCHOR);
      assert Precedes(image, p, site, start);
    }
  }

  lemma FollowingExactlyWhen(image: seq<byte>, from: nat, end: nat)
    ensures HasFollowing(image, from, end) <==> AnchoredBehind(image, from, end)
  {
    if p :| Follows(image, p, from, end) {
      SixIsAt(image, p, FOLLOWING_ANCHOR);
    }
    if p :| from <= p <= from + 18 && p + 6 <= end && Six(image, p) == [0x81, 0xFA, 0xBF, 0x0B, 0x00, 0x00] {
      SixIsAt(image, p, FOLLOWING_ANCHOR);
      assert Follows(image, p, from, end);
    }
  }

  /** A jump if equal behind the compare: the short one, or the near one if the section has room. */
  lemma JumpExactlyWhen(image: seq<byte>, next: nat, end: nat)
    requires next + 2 <= end <= |image|
    ensures JumpLength(image, next, end) ==
      if image[next] == 0x74 then 2
      else if image[next] == 0x0F && image[next + 1] == 0x84 && next + 6 <= end then 6
      else 0
  {}

  lemma CompareExactlyWhen(image: seq<byte>, site: nat)
    ensures At(image, site, ORIGINAL) <==> Six(image, site) == [0x81, 0xFA, 0xD0, 0x07, 0x00, 0x00]
    ensures At(image, site, PATCHED) <==> Six(image, site) == [0x39, 0xD2, 0x90, 0x90, 0x90, 0x90]
  {}

  /** A valid site, byte by byte: the compare with 2000 or what the patch makes of it, in front of a
      jump if equal, behind the compare with 7999 and before the one with 3007. */
  lemma ValidExactlyWhen(image: seq<byte>, site: nat, start: nat, end: nat)
    requires end <= |image|
    ensures ValidSite(image, site, start, end) <==>
      && start <= site && site + 8 <= end
      && (Six(image, site) == [0x81, 0xFA, 0xD0, 0x07, 0x00, 0x00] || Six(image, site) == [0x39, 0xD2, 0x90, 0x90, 0x90, 0x90])
      && AnchoredBefore(image, site, start)
      && ((image[site + 6] == 0x74 && AnchoredBehind(image, site + 8, end))
          || (image[site + 6] == 0x0F && image[site + 7] == 0x84 && site + 12 <= end && AnchoredBehind(image, site + 12, end)))
  {
    PrecedingExactlyWhen(image, site, start);
    CompareExactlyWhen(image, site);
    if start <= site && site + 8 <= end {
      JumpExactlyWhen(image, site + 6, end);
      FollowingExactlyWhen(image, site + 8, end);
      FollowingExactlyWhen(image, site + 12, end);
    }
  }

  // ---------------------------------------------------------------- the measured builds

  /** The instructions around the check on the builds that were measured, with any distances in the
      two jumps. */
  function MeasuredBlock(short: byte, d0: byte, d1: byte, d2: byte, d3: byte): seq<byte> {
    [0x81, 0xFA, 0x3F, 0x1F, 0x00, 0x00, 0x74, short]
    + [0x81, 0xFA, 0xD0, 0x07, 0x00, 0x00]
    + [0x0F, 0x84, d0, d1, d2, d3]
    + [0x81, 0xFA, 0xBF, 0x0B, 0x00, 0x00]
  }

  /** Wherever this block stands in an executable section, the compare in it is a site. */
  lemma MeasuredBlockIsSite(image: seq<byte>, p: nat, short: byte, d0: byte, d1: byte, d2: byte, d3: byte, sections: seq<Section>, k: nat)
    requires k < |sections| && sections[k].rva <= p && p + 26 <= sections[k].rva + sections[k].size <= |image|
    requires image[p..p + 26] == MeasuredBlock(short, d0, d1, d2, d3)
    ensures p + 8 in Sites(image, sections)
  {
    MeasuredParts(image, p, short, d0, d1, d2, d3);
    ValidExactlyWhen(image, p + 8, sections[k].rva, sections[k].rva + sections[k].size);
    assert ValidIn(image, p + 8, sections[k]);
    assert IsSite(image, sections, p + 8);
  }

  lemma MeasuredParts(image: seq<byte>, p: nat, short: byte, d0: byte, d1: byte, d2: byte, d3: byte)
    requires p + 26 <= |image| && image[p..p + 26] == MeasuredBlock(short, d0, d1, d2, d3)
    ensures Six(image, p) == [0x81, 0xFA, 0x3F, 0x1F, 0x00, 0x00] && Six(image, p + 8) == [0x81, 0xFA, 0xD0, 0x07, 0x00, 0x00]
    ensures image[p + 14] == 0x0F && image[p + 15] == 0x84 && Six(image, p + 20) == [0x81, 0xFA, 0xBF, 0x0B, 0x00, 0x00]
  {
    var block := MeasuredBlock(short, d0, d1, d2, d3);
    assert forall i :: 0 <= i < 26 ==> image[p + i] == image[p..p + 26][i] == block[i];
    assert image[p..p + 6] == block[..6] == [0x81, 0xFA, 0x3F, 0x1F, 0x00, 0x00];
    assert image[p + 8..p + 14] == block[8..14] == [0x81, 0xFA, 0xD0, 0x07, 0x00, 0x00];
    assert image[p + 20..p + 26] == block[20..26] == [0x81, 0xFA, 0xBF, 0x0B, 0x00, 0x00];
    assert image[p + 14] == block[14] && image[p + 15] == block[15];
  }

  // ---------------------------------------------------------------- how far the anchors may be

  function Zeros(n: nat): (z: seq<byte>)
    ensures |z| == n && forall i :: 0 <= i < n ==> z[i] == 0
  {
    seq(n, _ => 0)
  }

  /** The compare with `before` bytes between it and the first anchor and, behind a short jump,
      `after` bytes before the second. */
  function Stretched(before: nat, after: nat): seq<byte> {
    [0x81, 0xFA, 0x3F, 0x1F, 0x00, 0x00] + Zeros(before) + [0x81, 0xFA, 0xD0, 0x07, 0x00, 0x00, 0x74, 0x00]
    + Zeros(after) + [0x81, 0xFA, 0xBF, 0x0B, 0x00, 0x00]
  }

  lemma StretchedParts(before: nat, after: nat)
    ensures var image := Stretched(before, after);
      && |image| == before + after + 20
      && Six(image, 0) == [0x81, 0xFA, 0x3F, 0x1F, 0x00, 0x00]
      && Six(image, before + 6) == [0x81, 0xFA, 0xD0, 0x07, 0x00, 0x00] && image[before + 12] == 0x74
      && Six(image, before + after + 14) == [0x81, 0xFA, 0xBF, 0x0B, 0x00, 0x00]
      && (forall i :: 0 < i < before + 6 ==> image[i] != 0x81)
      && (forall i :: before + 14 <= i < before + after + 14 ==> image[i] == 0)
  {}

  /** Up to 10 bytes may stand before and up to 18 behind; 11 or 19 are too many. */
  lemma StretchedIsSiteExactlyWhen(before: nat, after: nat)
    ensures ValidSite(Stretched(before, after), before + 6, 0, before + after + 20) <==> before <= 10 && after <= 18
  {
    StretchedParts(before, after);
    var image, site, last := Stretched(before, after), before + 6, before + after + 14;
    ValidExactlyWhen(image, site, 0, |image|);
    if before <= 10 && after <= 18 {
      assert site - 16 <= 0 <= site - 6 && Six(image, 0) == [0x81, 0xFA, 0x3F, 0x1F, 0x00, 0x00];
      assert site + 8 <= last <= site + 26 && last + 6 <= |image|;
    } else if before > 10 {
      forall p | 0 <= p && site - 16 <= p <= site - 6 ensures Six(image, p) != [0x81, 0xFA, 0x3F, 0x1F, 0x00, 0x00] {
        assert Six(image, p)[0] == image[p];
      }
    } else {
      forall p | site + 8 <= p <= site + 26 && p + 6 <= |image| ensures Six(image, p) != [0x81, 0xFA, 0xBF, 0x0B, 0x00, 0x00] {
        assert Six(image, p)[0] == image[p];
      }
    }
  }

  // ---------------------------------------------------------------- the search and the patch

  /** The k-th section is the first that holds the six bytes from `rva`. */
  predicate HeldFirst(sections: seq<Section>, rva: nat, k: nat) {
    && k < |sections| && sections[k].rva <= rva && rva + 6 <= sections[k].rva + sections[k].size
    && forall j :: 0 <= j < k ==> !(sections[j].rva <= rva && rva + 6 <= sections[j].rva + sections[j].size)
  }

  /** A hint is one of the two positions of the measured builds; it counts if it is valid in the first
      section that holds its six bytes. */
  lemma HintsExactlyWhen(image: seq<byte>, sections: seq<Section>, hint: nat)
    ensures hint in HintSites(image, sections) <==>
      hint in {0x48515, 0x49C27} && hint + 6 <= |image| && exists k: nat :: HeldFirst(sections, hint, k) && ValidIn(image, hint, sections[k])
  {
    assert HINTS == [0x48515, 0x49C27];
    forall k: nat ensures FirstHolder(sections, hint, k) <==> HeldFirst(sections, hint, k) {
      assert forall j :: 0 <= j < |sections| ==>
        (Holds(sections[j], hint) <==> sections[j].rva <= hint && hint + 6 <= sections[j].rva + sections[j].size);
    }
  }

  /** The patch writes a compare of the register with itself and four no-operations, and no other byte. */
  lemma PatchWrites(image: seq<byte>, site: nat, i: nat)
    requires site + 6 <= |image|
    ensures |Patch(image, site)| == |image| && Six(Patch(image, site), site) == [0x39, 0xD2, 0x90, 0x90, 0x90, 0x90]
    ensures i < |image| && !(site <= i < site + 6) ==> Patch(image, site)[i] == image[i]
  {}
}
