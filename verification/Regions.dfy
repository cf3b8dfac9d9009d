/** Memory regions and allocation layouts, as the allocators of src/allocator use them. */
module Regions {
  datatype Region = Region(start: nat, size: nat) {
    function End(): nat { start + size }
    predicate Contains(a: nat) { start <= a < End() }
  }

  predicate Apart(r: Region, s: Region) {
    r.End() <= s.start || s.End() <= r.start
  }

  datatype Layout = Layout(size: nat, align: nat)

  function Without<T>(s: seq<T>, i: nat): seq<T>
    requires i < |s|
  {
    s[..i] + s[i + 1..]
  }
}
