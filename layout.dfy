/**
 * The region layout as the image and library code see it: an ordered list of entries,
 * each a closed byte range [start, end] with a name, an "included" mark and an optional
 * file name given with `-i <region>:<file>`.
 *
 * The layout helpers that live in layout.c (included_regions_overlap, layout_next_included)
 * are not part of this model; they are specified here over the plain sequence.
 */
module Layout {
  import opened Common

  datatype Region = Region(start: nat, end: nat, name: string)

  datatype RomEntry = RomEntry(region: Region, included: bool, file: Option<string>)

  type Layout = seq<RomEntry>

  /** The closed ranges of two regions share at least one byte. */
  predicate Intersect(a: Region, b: Region) {
    !(a.start > b.end) && !(a.end < b.start)
  }

  /** Two distinct included entries share a byte (included_regions_overlap). */
  predicate IncludedRegionsOverlap(l: Layout) {
    exists i, j :: 0 <= i < j < |l| && l[i].included && l[j].included && Intersect(l[i].region, l[j].region)
  }

  /** The entry takes part in partial file I/O: included and paired with a file. */
  predicate HasIncludeFile(e: RomEntry) {
    e.included && e.file.Some?
  }

  /** The byte count `end - start + 1` of a region (meaningful when start <= end). */
  function RegionSize(r: Region): nat
    requires r.start <= r.end
  {
    r.end - r.start + 1
  }

  /** Every entry with an include file lies inside a buffer of `size` bytes. */
  predicate IncludedFilesFit(l: Layout, size: nat) {
    forall k :: 0 <= k < |l| && HasIncludeFile(l[k]) ==> l[k].region.start <= l[k].region.end < size
  }

  /** Every entry of the layout lies inside a buffer of `size` bytes. */
  predicate AllRegionsFit(l: Layout, size: nat) {
    forall k :: 0 <= k < |l| ==> l[k].region.start <= l[k].region.end < size
  }
}
