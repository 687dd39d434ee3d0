/** Header fields as they are printed, shared by requests and responses. */
module HeaderText {

  type Header = (string, string)

  function HeaderLine(h: Header): string { h.0 + ": " + h.1 + "\r\n" }

  function HeaderBlock(hs: seq<Header>): string {
    if hs == [] then "" else HeaderLine(hs[0]) + HeaderBlock(hs[1..])
  }

  /** `order` lists the header names the way the sorted map is iterated; nothing
      below depends on which order that is. */
  predicate Enumerates(order: seq<string>, headers: map<string, string>) {
    (forall k :: k in order ==> k in headers) && (forall k :: k in headers ==> k in order)
  }

  lemma {:induction false} HeaderBlockAppend(xs: seq<Header>, ys: seq<Header>)
    ensures HeaderBlock(xs + ys) == HeaderBlock(xs) + HeaderBlock(ys)
  {
    if xs == [] {
      assert xs + ys == ys;
    } else {
      HeaderBlockAppend(xs[1..], ys);
      assert (xs + ys)[1..] == xs[1..] + ys;
    }
  }

  /** `stream << name << ": " << value << "\r\n"` after the headers `hs`. */
  method Emit(out: string, name: string, value: string, ghost start: string, ghost hs: seq<Header>)
      returns (r: string)
    requires out == start + HeaderBlock(hs)
    ensures r == start + HeaderBlock(hs + [(name, value)])
  {
    r := out + name + ": " + value + "\r\n";
    var h: Header := (name, value);
    HeaderBlockAppend(hs, [h]);
    assert [h][1..] == [];
    assert HeaderBlock([h]) == HeaderLine(h);
  }
}
