/** Vocabulary shared by every part of the global settings store: optional
    values (a C pointer that may be NULL), the return codes the store hands
    back, opaque configuration objects, and the C conversions the store applies
    to parser values. */
module Types {

  /** A value that may be absent: `None` is a NULL pointer. */
  datatype Option<T> = None | Some(value: T)

  /** The value held, or `dflt` when there is none -- the getters that
      substitute a default for NULL. */
  function GetOr<T>(o: Option<T>, dflt: T): (r: T)
    ensures o.Some? ==> r == o.value
    ensures o.None? ==> r == dflt
  {
    if o.Some? then o.value else dflt
  }

  /** The `rsRetVal` codes returned by the operations modelled here. */
  datatype RsRet = Ok | Err | ErrWrkDir

  /** A configuration object (`struct cnfobj *`) built by the external config
      parser; only its identity matters to the store. */
  datatype CnfObj = CnfObj(id: nat)

  const Int32Modulus: int := 0x1_0000_0000

  predicate IsInt32(n: int) {
    -0x8000_0000 <= n < 0x8000_0000
  }

  /** The C cast `(int) n` applied to a 64-bit parser number: the low 32 bits
      read as a two's-complement value. */
  function ToInt32(n: int): (r: int)
    ensures IsInt32(r)
    ensures (r - n) % Int32Modulus == 0
    ensures IsInt32(n) ==> r == n
  {
    (n + 0x8000_0000) % Int32Modulus - 0x8000_0000
  }

  /** The C conversion `(uchar) *cstr` of a string the parser holds as
      UTF-8: the first byte of the encoding, or the terminating NUL when the
      string is empty. An ASCII first character is its own byte; any other
      first character yields the lead byte of its multi-byte sequence. */
  function FirstByte(s: string): (b: int)
    ensures 0 <= b < 0x100
    ensures |s| == 0 ==> b == 0
    ensures |s| > 0 && s[0] as int < 0x80 ==> b == s[0] as int
    ensures |s| > 0 && s[0] as int >= 0x80 ==> 0xC2 <= b <= 0xF4
    // the lead byte's tag bits and payload, as section 3 of RFC 3629 lays
    // out the two-, three- and four-byte forms
    ensures |s| > 0 && 0x80 <= s[0] as int < 0x800 ==>
      b / 0x20 == 0x6 && b % 0x20 == s[0] as int / 0x40
    ensures |s| > 0 && 0x800 <= s[0] as int < 0x1_0000 ==>
      b / 0x10 == 0xE && b % 0x10 == s[0] as int / 0x1000
    ensures |s| > 0 && 0x1_0000 <= s[0] as int ==>
      b / 0x8 == 0x1E && b % 0x8 == s[0] as int / 0x4_0000
  {
    if |s| == 0 then 0
    else
      var c := s[0] as int;
      if c < 0x80 then c
      else if c < 0x800 then 0xC0 + c / 0x40
      else if c < 0x1_0000 then 0xE0 + c / 0x1000
      else 0xF0 + c / 0x4_0000
  }

  /** The escape character stored for a string: its first byte, as the
      character with that code. */
  function FirstChar(s: string): (c: char)
    ensures c as int == FirstByte(s)
    ensures c as int < 0x100
    ensures |s| > 0 && s[0] as int < 0x80 ==> c == s[0]
    ensures |s| == 0 ==> c == 0 as char
  {
    FirstByte(s) as char
  }

  /** An ASCII prefix is stored as it is, an empty one as NUL, and a
      non-ASCII one as its UTF-8 lead byte: "\U{E9}" (e-acute, encoded
      C3 A9) stores the character with code 0xC3. */
  lemma FirstCharExamples()
    ensures FirstChar("#") == '#'
    ensures FirstChar("") == 0 as char
    ensures FirstChar("\U{E9}") == 0xC3 as char
    ensures FirstChar("\U{20AC}") == 0xE2 as char
  {
  }
}

/** Property cells: the reference-counted string boxes the store publishes.
    A cell is an abstract id holding a string; constructing one yields a fresh
    id, destructing one marks it dead. Ids are never reused. */
module Cells {

  type CellId = nat

  datatype Heap = Heap(text: seq<string>, destroyed: set<CellId>)

  const EmptyHeap: Heap := Heap([], {})

  predicate Allocated(h: Heap, c: CellId) {
    c < |h.text|
  }

  predicate Alive(h: Heap, c: CellId) {
    Allocated(h, c) && c !in h.destroyed
  }

  /** Only constructed cells can have been destructed. */
  predicate WellFormed(h: Heap) {
    forall c :: c in h.destroyed ==> Allocated(h, c)
  }

  /** `h'` is a later state of `h`: no cell changed its text, and no dead cell
      came back to life. */
  predicate Grows(h: Heap, h': Heap) {
    && |h.text| <= |h'.text|
    && h.text == h'.text[..|h.text|]
    && h.destroyed <= h'.destroyed
  }

  /** `prop.Construct` + `prop.SetString` + `prop.ConstructFinalize`. */
  function Construct(h: Heap, s: string): (r: (Heap, CellId))
    requires WellFormed(h)
    ensures WellFormed(r.0)
    ensures !Allocated(h, r.1) && Alive(r.0, r.1) && r.0.text[r.1] == s
    ensures Grows(h, r.0) && r.0.destroyed == h.destroyed
    ensures forall c :: Allocated(r.0, c) ==> Allocated(h, c) || c == r.1
  {
    (Heap(h.text + [s], h.destroyed), |h.text|)
  }

  /** `prop.Destruct`: the cell dies, every other cell keeps its state. */
  function Destruct(h: Heap, c: CellId): (r: Heap)
    requires WellFormed(h) && Allocated(h, c)
    ensures WellFormed(r)
    ensures !Alive(r, c)
    ensures forall d :: d != c ==> (Alive(r, d) <==> Alive(h, d))
    ensures Grows(h, r) && r.text == h.text
  {
    Heap(h.text, h.destroyed + {c})
  }

  lemma GrowsTransitive(a: Heap, b: Heap, c: Heap)
    requires Grows(a, b) && Grows(b, c)
    ensures Grows(a, c)
  {
    assert b.text[..|a.text|] == a.text;
    assert c.text[..|b.text|][..|a.text|] == c.text[..|a.text|];
  }
}
