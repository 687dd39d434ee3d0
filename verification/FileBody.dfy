/** A region of an open file waiting to be sent (include/myself/util/FileBody.h). */
module FileBodies {

  /** `content` is what the file holds; `offset` and `length` are the region the
      response announced. The file may since have become shorter than the region. */
  datatype FileBody = FileBody(content: string, offset: nat, length: nat)

  /** The bytes of the region from `from` on that the file really has. */
  function BytesFrom(f: FileBody, from: nat, remaining: nat): string {
    if from >= |f.content| then ""
    else if from + remaining <= |f.content| then f.content[from..from + remaining]
    else f.content[from..]
  }

  function FileBytes(f: FileBody): string { BytesFrom(f, f.offset, f.length) }

  /** Of a file that still has its announced region exactly that region is sent; of one that
      became shorter, what is left of it. */
  lemma FileBytesAreTheRegion(f: FileBody)
    ensures f.offset + f.length <= |f.content| ==> FileBytes(f) == f.content[f.offset..f.offset + f.length]
    ensures f.offset <= |f.content| < f.offset + f.length ==> FileBytes(f) == f.content[f.offset..]
    ensures |f.content| < f.offset ==> FileBytes(f) == ""
  {}

  /** Sending a prefix of the region leaves the region behind that prefix. */
  lemma BytesFromSplit(f: FileBody, from: nat, remaining: nat, n: nat)
    requires n <= |BytesFrom(f, from, remaining)|
    ensures n <= remaining
    ensures BytesFrom(f, from, remaining)
         == BytesFrom(f, from, remaining)[..n] + BytesFrom(f, from + n, remaining - n)
    ensures BytesFrom(f, from + n, remaining - n) == BytesFrom(f, from, remaining)[n..]
  {}

  lemma NothingLeft(f: FileBody, from: nat, remaining: nat)
    ensures remaining == 0 ==> BytesFrom(f, from, remaining) == ""
  {}

  lemma RegionTail(f: FileBody, k: nat)
    requires k <= |FileBytes(f)|
    ensures |FileBytes(f)| <= f.length
    ensures BytesFrom(f, f.offset + k, f.length - k) == FileBytes(f)[k..]
  {}
}
