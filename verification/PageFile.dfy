/** A database file as a sequence of pages. */
module PageFile {
  import opened Bytes
  import opened NodePage
  import opened FreeList

  /** The bytes of a file of pages. */
  function Concat(pages: seq<Bytes>): Bytes {
    if pages == [] then [] else pages[0] + Concat(pages[1..])
  }

  /** The whole pages of a file. */
  function Pages(file: Bytes): seq<Bytes> {
    if |file| < PAGE_SIZE then [] else [file[..PAGE_SIZE]] + Pages(file[PAGE_SIZE..])
  }

  lemma {:induction false} PagesSized(file: Bytes)
    ensures WellSized(Pages(file)) && |Pages(file)| * PAGE_SIZE <= |file|
    ensures |file| % PAGE_SIZE == 0 ==> Concat(Pages(file)) == file
  {
    if |file| >= PAGE_SIZE {
      PagesSized(file[PAGE_SIZE..]);
      assert Pages(file)[1..] == Pages(file[PAGE_SIZE..]);
      assert file == file[..PAGE_SIZE] + file[PAGE_SIZE..];
    }
  }

  lemma {:induction false} ConcatPages(pages: seq<Bytes>)
    requires WellSized(pages)
    ensures |Concat(pages)| == |pages| * PAGE_SIZE && |Concat(pages)| % PAGE_SIZE == 0 && Pages(Concat(pages)) == pages
  {
    if pages != [] {
      ConcatPages(pages[1..]);
      assert Concat(pages)[..PAGE_SIZE] == pages[0] && Concat(pages)[PAGE_SIZE..] == Concat(pages[1..]);
      assert pages == [pages[0]] + pages[1..];
    }
  }
}
