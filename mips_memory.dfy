/** The MIPS simulator's memory regions: the stack (with an environment hook
    that does nothing), global memory (an overlay backed by user patches and
    by the static ELF image, with an access history), and base regions (heap
    buffers with a status and an optional size).  Each region keeps its bytes
    in an overlay; the generic region class behind it (SimMemory) is not part
    of this model, and OverlayRead stands in for its `get`. */
module MipsMemory {
  import opened Base
  import opened SimValue
  import opened MipsState

  // ---------------------------------------------------------------------------
  // The byte overlay (the SimMemory stand-in)
  // ---------------------------------------------------------------------------

  /** The defined bytes at `offset .. offset + n - 1`, or None when one of
      them is undefined; every byte is assumed present. */
  function DefinedBytes(m: map<int, Value>, offset: int, n: nat): (r: Option<seq<byte>>)
    requires forall j :: offset <= j < offset + n ==> j in m
    ensures r.Some? ==> |r.value| == n
    decreases n
  {
    if n == 0 then Some([])
    else
      var v := m[offset];
      if v.Literal? && v.defined && v.bits < 256 then
        match DefinedBytes(m, offset + 1, n - 1)
        case None => None
        case Some(rest) => Some([v.bits as byte] + rest)
      else None
  }

  /** SimMemory.get: a byte never written raises; otherwise the value of the
      bytes, undefined when one of them is. */
  function OverlayRead(m: map<int, Value>, address: SimAddress, size: nat, bigendian: bool): (r: Result<Value, string>)
    ensures r.Ok? <==> forall j :: address.offset <= j < address.offset + size ==> j in m
    ensures r.Ok? ==> r.value.Literal? && r.value.size == size
  {
    if forall j :: address.offset <= j < address.offset + size ==> j in m then
      match DefinedBytes(m, address.offset, size)
      case Some(bs) => Ok(Literal(size, Assemble(bs, bigendian), true))
      case None => Ok(Literal(size, 0, false))
    else
      Err("no value in memory at " + Render(Address(address)))
  }

  /** The defined byte with value `b`. */
  function ByteValue(b: byte): Value
  {
    Literal(1, b as nat, true)
  }

  /** Bytes written one by one from a sequence of defined bytes read back as
      that sequence. */
  lemma {:induction false} DefinedBytesOfWritten(m: map<int, Value>, offset: int, bs: seq<byte>)
    requires forall j :: offset <= j < offset + |bs| ==> j in m
    requires forall k :: 0 <= k < |bs| ==> m[offset + k] == ByteValue(bs[k])
    ensures DefinedBytes(m, offset, |bs|) == Some(bs)
    decreases |bs|
  {
    if |bs| > 0 {
      var rest := bs[1..];
      assert m[offset] == ByteValue(bs[0]) by {
        assert m[offset + 0] == ByteValue(bs[0]);
      }
      forall k | 0 <= k < |rest|
        ensures m[offset + 1 + k] == ByteValue(rest[k])
      {
        assert m[offset + (k + 1)] == ByteValue(bs[k + 1]);
        assert offset + 1 + k == offset + (k + 1);
      }
      DefinedBytesOfWritten(m, offset + 1, rest);
      assert [bs[0]] + bs[1..] == bs;
    }
  }

  // ---------------------------------------------------------------------------
  // The static image
  // ---------------------------------------------------------------------------

  /** The ELF image as global memory consults it: the section that holds an
      address (get_elf_section_index) and the byte at an address of a section
      (get_memory_value). */
  datatype ElfImage = ElfImage(sectionIndex: int -> Option<nat>, memoryValue: (nat, int) -> Option<byte>)

  /** The first address in `lo .. hi - 1` the section has no byte for. */
  function FirstMissing(img: ElfImage, sec: nat, lo: int, hi: int): (r: Option<int>)
    ensures r.Some? ==> lo <= r.value < hi && img.memoryValue(sec, r.value).None?
    ensures r.Some? ==> (forall j :: lo <= j < r.value ==> img.memoryValue(sec, j).Some?)
    ensures r.None? ==> (forall j :: lo <= j < hi ==> img.memoryValue(sec, j).Some?)
    decreases hi - lo
  {
    if lo >= hi then None
    else if img.memoryValue(sec, lo).None? then Some(lo)
    else FirstMissing(img, sec, lo + 1, hi)
  }

  /** A missing byte after a present prefix is the first missing one. */
  lemma {:induction false} FirstMissingIs(img: ElfImage, sec: nat, lo: int, hi: int, i: int)
    requires lo <= i < hi && img.memoryValue(sec, i).None?
    requires forall j :: lo <= j < i ==> img.memoryValue(sec, j).Some?
    ensures FirstMissing(img, sec, lo, hi) == Some(i)
    decreases i - lo
  {
    if lo < i {
      FirstMissingIs(img, sec, lo + 1, hi, i);
    }
  }

  /** The image bytes of `lo .. hi - 1`, as overlay entries. */
  function ImageRange(img: ElfImage, sec: nat, lo: int, hi: int): (r: map<int, Value>)
    requires forall j :: lo <= j < hi ==> img.memoryValue(sec, j).Some?
    ensures forall j :: j in r <==> lo <= j < hi
    ensures forall j :: lo <= j < hi ==> r[j] == ByteValue(img.memoryValue(sec, j).value)
  {
    map j | lo <= j < hi :: ByteValue(img.memoryValue(sec, j).value)
  }

  /** Copying the byte at `i` after those of `lo .. i - 1` gives the overlay
      of `lo .. i`. */
  lemma ImageRangeExtend(img: ElfImage, sec: nat, m: map<int, Value>, lo: int, i: int)
    requires lo <= i
    requires forall j :: lo <= j <= i ==> img.memoryValue(sec, j).Some?
    ensures (m + ImageRange(img, sec, lo, i))[i := ByteValue(img.memoryValue(sec, i).value)]
            == m + ImageRange(img, sec, lo, i + 1)
  {
  }

  /** The image bytes of `lo .. hi - 1`, as a sequence. */
  function ImageBytes(img: ElfImage, sec: nat, lo: int, hi: int): (bs: seq<byte>)
    requires lo <= hi
    requires forall j :: lo <= j < hi ==> img.memoryValue(sec, j).Some?
    ensures |bs| == hi - lo
    ensures forall k :: 0 <= k < hi - lo ==> bs[k] == img.memoryValue(sec, lo + k).value
  {
    seq(hi - lo, k requires 0 <= k < hi - lo => img.memoryValue(sec, lo + k).value)
  }

  // ---------------------------------------------------------------------------
  // Global memory: what one read does
  // ---------------------------------------------------------------------------

  /** patched_globals: the patch table, fetched from the support data while
      it is still empty. */
  function Patches(patched: map<string, string>, support: map<string, string>): (p: map<string, string>)
    ensures |patched| != 0 ==> p == patched
    ensures |patched| == 0 ==> p == support
  {
    if |patched| == 0 then support else patched
  }

  /** get_patched_global: the patch for an address, parsed from hex, as a
      doubleword; an unpatched address is a CHB error, and a patch that is
      not hex raises int's ValueError instead. */
  function PatchedGlobal(p: map<string, string>, address: SimAddress): (r: Result<Value, SimError>)
    ensures Hex(address.offset) !in p ==> r == Err(StructuralError("No patched global found for " + Render(Address(address))))
    ensures Hex(address.offset) in p && ParseHex(p[Hex(address.offset)]).Some? ==>
              r == Ok(MkSimValue(ParseHex(p[Hex(address.offset)]).value, 4))
    ensures Hex(address.offset) in p && ParseHex(p[Hex(address.offset)]).None? ==>
              r == Err(ValueError("invalid literal for int() with base 16: '" + p[Hex(address.offset)] + "'"))
  {
    var key := Hex(address.offset);
    if key in p then
      match ParseHex(p[key])
      case Some(v) => Ok(MkSimValue(v, 4))
      case None => Err(ValueError("invalid literal for int() with base 16: '" + p[key] + "'"))
    else
      Err(StructuralError("No patched global found for " + Render(Address(address))))
  }

  /** A patch written as the hex of a number reads back as that number,
      truncated to a doubleword. */
  lemma PatchReadsBack(p: map<string, string>, address: SimAddress, v: int)
    requires Hex(address.offset) in p && p[Hex(address.offset)] == Hex(v)
    ensures PatchedGlobal(p, address) == Ok(MkSimValue(v, 4))
  {
    HexRoundTrip(v);
  }

  /** How get_from_section ends. */
  datatype SectionCase =
    | Undefined          // the address is not defined
    | Patched            // a user patch answers
    | OutsideImage       // no section holds the address
    | MissingByte(at: int, sec: nat) // the section lacks a byte of the range
    | InImage(sec: nat)  // every byte of the range is in the section

  /** How a read of a defined, unpatched address ends. */
  function ImageCase(img: ElfImage, address: SimAddress, size: nat): (c: SectionCase)
    ensures c.OutsideImage? || c.MissingByte? || c.InImage?
    ensures c.OutsideImage? <==> img.sectionIndex(address.offset).None?
    ensures c.MissingByte? ==> img.sectionIndex(address.offset) == Some(c.sec)
                               && FirstMissing(img, c.sec, address.offset, address.offset + size) == Some(c.at)
    ensures c.InImage? ==> img.sectionIndex(address.offset) == Some(c.sec)
                           && FirstMissing(img, c.sec, address.offset, address.offset + size).None?
  {
    match img.sectionIndex(address.offset)
    case None => OutsideImage
    case Some(sec) =>
      match FirstMissing(img, sec, address.offset, address.offset + size)
      case Some(i) => MissingByte(i, sec)
      case None => InImage(sec)
  }

  function Case(img: ElfImage, p: map<string, string>, address: SimAddress, size: nat): (c: SectionCase)
    ensures !address.defined <==> c.Undefined?
    ensures address.defined ==> (Hex(address.offset) in p <==> c.Patched?)
    ensures address.defined && Hex(address.offset) !in p ==> c == ImageCase(img, address, size)
  {
    if !address.defined then Undefined
    else if Hex(address.offset) in p then Patched
    else ImageCase(img, address, size)
  }

  /** The overlay after an image read: the bytes copied before it returns or
      raises. */
  function ImageMemory(img: ElfImage, m: map<int, Value>, address: SimAddress, size: nat): map<int, Value>
  {
    match ImageCase(img, address, size)
    case MissingByte(i, sec) => m + ImageRange(img, sec, address.offset, i)
    case InImage(sec) => m + ImageRange(img, sec, address.offset, address.offset + size)
    case _ => m
  }

  /** The overlay after get_from_section. */
  function SectionMemory(img: ElfImage, p: map<string, string>, m: map<int, Value>, address: SimAddress, size: nat): map<int, Value>
  {
    if !address.defined || Hex(address.offset) in p then m else ImageMemory(img, m, address, size)
  }

  /** The value of an in-image read: the overlay read after the copy, zero
      if it is still undefined. */
  function InImageValue(m: map<int, Value>, address: SimAddress, size: nat, bigendian: bool): Result<Value, SimError>
  {
    match OverlayRead(m, address, size, bigendian)
    case Ok(v) => Ok(if v.IsDefined() then v else MkSimValue(0, size))
    case Err(e) => Err(SimulationError("", e))
  }

  /** The result of an image read. */
  function ImageResult(img: ElfImage, m: map<int, Value>, address: SimAddress, size: nat, bigendian: bool): (r: Result<Value, SimError>)
    ensures ImageCase(img, address, size).OutsideImage? ==> r == Ok(MkSimValue(0, size))
    ensures ImageCase(img, address, size).MissingByte? ==>
              r == Err(StructuralError("No value found for " + Hex(ImageCase(img, address, size).at)
                                       + " in section " + Str(ImageCase(img, address, size).sec)))
  {
    match ImageCase(img, address, size)
    case MissingByte(i, sec) => Err(StructuralError("No value found for " + Hex(i) + " in section " + Str(sec)))
    case InImage(_) => InImageValue(ImageMemory(img, m, address, size), address, size, bigendian)
    case _ => Ok(MkSimValue(0, size))
  }

  /** Inside section `sec`, the case and the overlay follow the first
      missing byte of the range. */
  lemma CopyCase(img: ElfImage, m: map<int, Value>, address: SimAddress, size: nat, sec: nat)
    requires img.sectionIndex(address.offset) == Some(sec)
    ensures var missing := FirstMissing(img, sec, address.offset, address.offset + size);
            && ImageCase(img, address, size) == (if missing.Some? then MissingByte(missing.value, sec) else InImage(sec))
            && ImageMemory(img, m, address, size)
               == m + ImageRange(img, sec, address.offset, if missing.Some? then missing.value else address.offset + size)
  {
  }

  /** The result of get_from_section. */
  function SectionResult(img: ElfImage, p: map<string, string>, m: map<int, Value>, address: SimAddress, size: nat, bigendian: bool): (r: Result<Value, SimError>)
    ensures Case(img, p, address, size).Undefined? ==> r == Err(StructuralError("Address is not defined: " + Render(Address(address))))
    ensures Case(img, p, address, size).Patched? ==> r == PatchedGlobal(p, address)
    ensures Case(img, p, address, size).OutsideImage? ==> r == Ok(MkSimValue(0, size))
    ensures Case(img, p, address, size).MissingByte? ==>
              r == Err(StructuralError("No value found for " + Hex(Case(img, p, address, size).at)
                                       + " in section " + Str(Case(img, p, address, size).sec)))
  {
    if !address.defined then Err(StructuralError("Address is not defined: " + Render(Address(address))))
    else if Hex(address.offset) in p then PatchedGlobal(p, address)
    else ImageResult(img, m, address, size, bigendian)
  }

  /** Whether get_from_section logs "uninitialized": outside the image, and
      after a complete copy from it. */
  predicate SectionLogs(c: SectionCase)
  {
    c.OutsideImage? || c.InImage?
  }

  /** The log line of a global read. */
  function UninitializedLine(address: SimAddress): string
  {
    "global memory: " + Render(Address(address)) + " uninitialized"
  }

  /** The access-history entry of a read at `iaddr` that returned `v`. */
  function AccessEntry(iaddr: string, v: Value): string
  {
    iaddr + ":" + Render(v)
  }

  /** The access histories after a read at `iaddr` of `address` that
      returned `v`: one entry appended to that address's history. */
  function Recorded(acc: map<string, seq<string>>, iaddr: string, address: SimAddress, v: Value): (a: map<string, seq<string>>)
    ensures a.Keys == acc.Keys + {Render(Address(address))}
    ensures forall k :: k in acc && k != Render(Address(address)) ==> a[k] == acc[k]
    ensures a[Render(Address(address))] == (if Render(Address(address)) in acc then acc[Render(Address(address))] else []) + [AccessEntry(iaddr, v)]
  {
    var key := Render(Address(address));
    acc[key := (if key in acc then acc[key] else []) + [AccessEntry(iaddr, v)]]
  }

  /** After a complete copy the range reads back, defined, as the image's
      bytes: an in-image read yields exactly those bytes. */
  lemma InImageReadsImage(img: ElfImage, m: map<int, Value>, address: SimAddress, size: nat, bigendian: bool)
    requires ImageCase(img, address, size).InImage?
    ensures var sec := ImageCase(img, address, size).sec;
            var v := Literal(size, Assemble(ImageBytes(img, sec, address.offset, address.offset + size), bigendian), true);
            && OverlayRead(ImageMemory(img, m, address, size), address, size, bigendian) == Ok(v)
            && ImageResult(img, m, address, size, bigendian) == Ok(v)
  {
    var sec := ImageCase(img, address, size).sec;
    var lo, hi := address.offset, address.offset + size;
    var r := ImageRange(img, sec, lo, hi);
    var m' := m + r;
    assert ImageMemory(img, m, address, size) == m';
    forall j | lo <= j < hi
      ensures j in m' && m'[j] == ByteValue(img.memoryValue(sec, j).value)
    {
      assert j in r;
      assert m'[j] == r[j];
    }
    CopiedRangeReadsBack(img, sec, m', lo, hi);
  }

  /** A range whose every byte holds the image's byte reads back as the
      image's bytes. */
  lemma CopiedRangeReadsBack(img: ElfImage, sec: nat, m: map<int, Value>, lo: int, hi: int)
    requires lo <= hi
    requires forall j :: lo <= j < hi ==> img.memoryValue(sec, j).Some?
    requires forall j :: lo <= j < hi ==> j in m && m[j] == ByteValue(img.memoryValue(sec, j).value)
    ensures DefinedBytes(m, lo, hi - lo) == Some(ImageBytes(img, sec, lo, hi))
  {
    var bs := ImageBytes(img, sec, lo, hi);
    forall k | 0 <= k < |bs|
      ensures m[lo + k] == ByteValue(bs[k])
    {
      var j := lo + k;
      assert j in m && m[j] == ByteValue(img.memoryValue(sec, j).value);
    }
    DefinedBytesOfWritten(m, lo, bs);
  }

  /** A second read of a materialised range is answered by the overlay: the
      value the first read returned is defined there, so `get` returns it
      with nothing changed. */
  lemma {:induction false} SecondReadHitsOverlay(img: ElfImage, p: map<string, string>, m: map<int, Value>, address: SimAddress, size: nat, bigendian: bool)
    requires Case(img, p, address, size).InImage?
    ensures var o := OverlayRead(SectionMemory(img, p, m, address, size), address, size, bigendian);
            && o.Ok? && o.value.IsDefined()
            && SectionResult(img, p, m, address, size, bigendian) == Ok(o.value)
  {
    InImageReadsImage(img, m, address, size, bigendian);
  }

  /** A patched address is answered by the patch, whatever the image holds. */
  lemma PatchPrecedesImage(img1: ElfImage, img2: ElfImage, p: map<string, string>, m: map<int, Value>, address: SimAddress, size: nat, bigendian: bool)
    requires address.defined && Hex(address.offset) in p
    ensures SectionResult(img1, p, m, address, size, bigendian) == SectionResult(img2, p, m, address, size, bigendian)
    ensures SectionMemory(img1, p, m, address, size) == m
  {
  }

  // ---------------------------------------------------------------------------
  // The regions
  // ---------------------------------------------------------------------------

  /** MIPSimStackMemory. */
  class StackMemory {
    var mem: map<int, Value>

    constructor ()
      ensures mem == map[]
    {
      mem := map[];
    }

    /** set_environment_string does nothing. */
    method SetEnvironmentString(iaddr: string)
      ensures mem == old(mem)
    {
    }
  }

  /** MIPSimGlobalMemory. */
  class GlobalMemory {
    const simstate: MipsSimState
    const image: ElfImage
    /** What simsupport.get_patched_globals returns. */
    const support: map<string, string>
    var mem: map<int, Value>
    var accesses: map<string, seq<string>>
    var patched: map<string, string>

    constructor (simstate: MipsSimState, image: ElfImage, support: map<string, string>)
      ensures this.simstate == simstate && this.image == image && this.support == support
      ensures mem == map[] && accesses == map[] && patched == map[]
    {
      this.simstate := simstate;
      this.image := image;
      this.support := support;
      mem := map[];
      accesses := map[];
      patched := map[];
    }

    /** patched_globals: fills the table on first use. */
    method PatchedGlobals() returns (p: map<string, string>)
      modifies this`patched
      ensures patched == Patches(old(patched), support) && p == patched
    {
      if |patched| == 0 {
        patched := support;
      }
      p := patched;
    }

    method HasPatchedGlobal(address: SimAddress) returns (b: bool)
      modifies this`patched
      ensures patched == Patches(old(patched), support)
      ensures b <==> Hex(address.offset) in patched
    {
      var p := PatchedGlobals();
      b := Hex(address.offset) in p;
    }

    method GetPatchedGlobal(address: SimAddress) returns (r: Result<Value, SimError>)
      modifies this`patched
      ensures patched == Patches(old(patched), support)
      ensures r == PatchedGlobal(patched, address)
    {
      var has := HasPatchedGlobal(address);
      if has {
        var p := PatchedGlobals();
        var hexval := p[Hex(address.offset)];
        match ParseHex(hexval)
        case Some(v) => r := Ok(MkSimValue(v, 4));
        case None => r := Err(ValueError("invalid literal for int() with base 16: '" + hexval + "'"));
      } else {
        r := Err(StructuralError("No patched global found for " + Render(Address(address))));
      }
    }

    /** set_byte. */
    method SetByte(i: int, b: Value)
      modifies this`mem
      ensures mem == old(mem)[i := b]
    {
      mem := mem[i := b];
    }

    /** get_from_section.  A patch answers without consulting the image;
        outside the image one "uninitialized" line is logged and zero
        returned without writing the overlay; inside it every byte of the
        range is copied into the overlay (up to the first missing one, which
        raises), then the overlay is read, one line logged and one entry
        appended to the address's access history. */
    method GetFromSection(iaddr: string, address: SimAddress, size: nat) returns (r: Result<Value, SimError>)
      modifies this`mem, this`accesses, this`patched, simstate`log
      ensures patched == (if address.defined then Patches(old(patched), support) else old(patched))
      ensures r == SectionResult(image, patched, old(mem), address, size, simstate.bigendian)
      ensures mem == SectionMemory(image, patched, old(mem), address, size)
      ensures simstate.log == old(simstate.log)
                              + (if SectionLogs(Case(image, patched, address, size)) then [UninitializedLine(address)] else [])
      ensures accesses == (if Case(image, patched, address, size).InImage? then
                             Recorded(old(accesses), iaddr, address, r.value)
                           else old(accesses))
    {
      if !address.defined {
        assert Case(image, patched, address, size) == Undefined;
        return Err(StructuralError("Address is not defined: " + Render(Address(address))));
      }
      r := FromDefined(iaddr, address, size);
    }

    /** get_from_section for a defined address: the patch table first, then
        the image. */
    method FromDefined(iaddr: string, address: SimAddress, size: nat) returns (r: Result<Value, SimError>)
      requires address.defined
      modifies this`mem, this`accesses, this`patched, simstate`log
      ensures patched == Patches(old(patched), support)
      ensures Hex(address.offset) in patched ==>
                && r == PatchedGlobal(patched, address)
                && mem == old(mem) && simstate.log == old(simstate.log) && accesses == old(accesses)
      ensures Hex(address.offset) !in patched ==>
                && r == ImageResult(image, old(mem), address, size, simstate.bigendian)
                && mem == ImageMemory(image, old(mem), address, size)
                && simstate.log == old(simstate.log)
                                   + (if SectionLogs(ImageCase(image, address, size)) then [UninitializedLine(address)] else [])
                && accesses == (if ImageCase(image, address, size).InImage? then
                                  Recorded(old(accesses), iaddr, address, r.value)
                                else old(accesses))
    {
      var has := HasPatchedGlobal(address);
      if has {
        r := GetPatchedGlobal(address);
        return;
      }
      r := FromImage(iaddr, address, size);
    }

    /** get_from_section after the patch table is consulted, for a defined
        unpatched address. */
    method FromImage(iaddr: string, address: SimAddress, size: nat) returns (r: Result<Value, SimError>)
      requires address.defined
      modifies this`mem, this`accesses, simstate`log
      ensures var c := ImageCase(image, address, size);
              && r == ImageResult(image, old(mem), address, size, simstate.bigendian)
              && mem == ImageMemory(image, old(mem), address, size)
              && simstate.log == old(simstate.log) + (if SectionLogs(c) then [UninitializedLine(address)] else [])
              && accesses == (if c.InImage? then
                                Recorded(old(accesses), iaddr, address, r.value)
                              else old(accesses))
    {
      var offset := address.offset;
      var sectionindex := image.sectionIndex(offset);
      if sectionindex.None? {
        assert "global memory" + ": " + (Render(Address(address)) + " uninitialized") == UninitializedLine(address);
        simstate.AddLogMsg("global memory", Render(Address(address)) + " uninitialized");
        return Ok(MkSimValue(0, size));
      }
      r := FromSection(iaddr, address, size, sectionindex.value);
    }

    /** get_from_section for an address in section `sec`: the bytes are
        copied in, then read back. */
    method FromSection(iaddr: string, address: SimAddress, size: nat, sec: nat) returns (r: Result<Value, SimError>)
      requires image.sectionIndex(address.offset) == Some(sec)
      modifies this`mem, this`accesses, simstate`log
      ensures var c := ImageCase(image, address, size);
              && r == ImageResult(image, old(mem), address, size, simstate.bigendian)
              && mem == ImageMemory(image, old(mem), address, size)
              && simstate.log == old(simstate.log) + (if c.InImage? then [UninitializedLine(address)] else [])
              && accesses == (if c.InImage? then
                                Recorded(old(accesses), iaddr, address, r.value)
                              else old(accesses))
    {
      var offset := address.offset;
      var missing := CopyFromImage(sec, offset, offset + size);
      r := AfterCopy(iaddr, address, size, sec, missing, old(mem));
    }

    /** The rest of get_from_section once the copy loop has stopped, at the
        first missing byte or at the end of the range, over the overlay `m`
        it started from. */
    method AfterCopy(iaddr: string, address: SimAddress, size: nat, sec: nat, missing: Option<int>, ghost m: map<int, Value>)
      returns (r: Result<Value, SimError>)
      requires image.sectionIndex(address.offset) == Some(sec)
      requires missing == FirstMissing(image, sec, address.offset, address.offset + size)
      requires mem == m + ImageRange(image, sec, address.offset, if missing.Some? then missing.value else address.offset + size)
      modifies this`accesses, simstate`log
      ensures var c := ImageCase(image, address, size);
              && r == ImageResult(image, m, address, size, simstate.bigendian)
              && mem == ImageMemory(image, m, address, size)
              && simstate.log == old(simstate.log) + (if c.InImage? then [UninitializedLine(address)] else [])
              && accesses == (if c.InImage? then
                                Recorded(old(accesses), iaddr, address, r.value)
                              else old(accesses))
    {
      CopyCase(image, m, address, size, sec);
      if missing.Some? {
        r := MissingError(address, size, missing.value, sec, m);
      } else {
        r := ReadSection(iaddr, address, size, m);
      }
    }

    /** The error get_from_section raises for the first byte of the range
        that the section lacks. */
    method MissingError(address: SimAddress, size: nat, at: int, sec: nat, ghost m: map<int, Value>) returns (r: Result<Value, SimError>)
      requires ImageCase(image, address, size) == MissingByte(at, sec)
      ensures r == ImageResult(image, m, address, size, simstate.bigendian)
      ensures r.Err? && r.error.StructuralError?
    {
      r := Err(StructuralError("No value found for " + Hex(at) + " in section " + Str(sec)));
    }

    /** The end of get_from_section once the whole range is copied from the
        image into the overlay `m`. */
    method ReadSection(iaddr: string, address: SimAddress, size: nat, ghost m: map<int, Value>) returns (r: Result<Value, SimError>)
      requires ImageCase(image, address, size).InImage?
      requires mem == ImageMemory(image, m, address, size)
      modifies this`accesses, simstate`log
      ensures r == ImageResult(image, m, address, size, simstate.bigendian)
      ensures r.Ok?
      ensures simstate.log == old(simstate.log) + [UninitializedLine(address)]
      ensures accesses == Recorded(old(accesses), iaddr, address, r.value)
    {
      assert forall j :: address.offset <= j < address.offset + size ==> j in mem;
      r := ReadCopied(iaddr, address, size);
    }

    /** The copy loop of get_from_section: the bytes of `lo .. hi - 1` are
        copied into the overlay one by one, until the first one the section
        lacks, which is returned. */
    method CopyFromImage(sec: nat, lo: int, hi: int) returns (missing: Option<int>)
      requires lo <= hi
      modifies this`mem
      ensures missing == FirstMissing(image, sec, lo, hi)
      ensures missing.Some? ==> mem == old(mem) + ImageRange(image, sec, lo, missing.value)
      ensures missing.None? ==> mem == old(mem) + ImageRange(image, sec, lo, hi)
    {
      var i := lo;
      while i < hi
        invariant lo <= i <= hi
        invariant forall j :: lo <= j < i ==> image.memoryValue(sec, j).Some?
        invariant mem == old(mem) + ImageRange(image, sec, lo, i)
      {
        var byteval := image.memoryValue(sec, i);
        if byteval.None? {
          FirstMissingIs(image, sec, lo, hi, i);
          return Some(i);
        }
        SetByte(i, ByteValue(byteval.value));
        ImageRangeExtend(image, sec, old(mem), lo, i);
        i := i + 1;
      }
      missing := None;
    }

    /** The end of an in-image get_from_section: the overlay is read (zero
        where it is undefined), one line logged and one entry appended to the
        address's access history. */
    method ReadCopied(iaddr: string, address: SimAddress, size: nat) returns (r: Result<Value, SimError>)
      modifies this`accesses, simstate`log
      ensures r == InImageValue(mem, address, size, simstate.bigendian)
      ensures r.Err? ==> accesses == old(accesses) && simstate.log == old(simstate.log)
      ensures r.Ok? ==>
                && simstate.log == old(simstate.log) + [UninitializedLine(address)]
                && accesses == Recorded(old(accesses), iaddr, address, r.value)
    {
      var memval := OverlayRead(mem, address, size, simstate.bigendian);
      if memval.Err? {
        return Err(SimulationError("", memval.error));
      }
      var v := memval.value;
      if !v.IsDefined() {
        v := MkSimValue(0, size);
      }
      assert "global memory" + ": " + (Render(Address(address)) + " uninitialized") == UninitializedLine(address);
      simstate.AddLogMsg("global memory", Render(Address(address)) + " uninitialized");
      var key := Render(Address(address));
      var history := if key in accesses then accesses[key] else [];
      accesses := accesses[key := history + [AccessEntry(iaddr, v)]];
      r := Ok(v);
    }

    /** get: a defined overlay value is returned as it is, with nothing
        changed; an undefined one, or a failed overlay read, falls back to
        get_from_section. */
    method Get(iaddr: string, address: SimAddress, size: nat) returns (r: Result<Value, SimError>)
      modifies this`mem, this`accesses, this`patched, simstate`log
      ensures var o := old(OverlayRead(mem, address, size, simstate.bigendian));
              if o.Ok? && o.value.IsDefined() then
                && r == Ok(o.value)
                && mem == old(mem) && accesses == old(accesses) && patched == old(patched)
                && simstate.log == old(simstate.log)
              else
                && patched == (if address.defined then Patches(old(patched), support) else old(patched))
                && r == SectionResult(image, patched, old(mem), address, size, simstate.bigendian)
                && mem == SectionMemory(image, patched, old(mem), address, size)
                && simstate.log == old(simstate.log)
                                   + (if SectionLogs(Case(image, patched, address, size)) then [UninitializedLine(address)] else [])
                && accesses == (if Case(image, patched, address, size).InImage? then
                                  Recorded(old(accesses), iaddr, address, r.value)
                                else old(accesses))
    {
      var result := OverlayRead(mem, address, size, simstate.bigendian);
      if result.Ok? && result.value.IsDefined() {
        return Ok(result.value);
      }
      r := GetFromSection(iaddr, address, size);
    }
  }

  /** MIPSimBaseMemory: a heap buffer. */
  class BaseMemory {
    const name: string
    const size: Option<int>
    var mem: map<int, Value>
    var status: string

    constructor (name: string, buffersize: Option<int>)
      ensures this.name == name && size == buffersize && mem == map[]
      ensures IsValid()
    {
      this.name := name;
      size := buffersize;
      mem := map[];
      status := "valid";
    }

    /** buffersize: raises when the size is not known. */
    function Buffersize(): (r: Result<int, SimError>)
      reads this
      ensures r.Ok? <==> size.Some?
      ensures r.Ok? ==> r.value == size.value
      ensures r.Err? ==> r.error == StructuralError("Buffersize of memory is not known")
    {
      match size
      case Some(n) => Ok(n)
      case None => Err(StructuralError("Buffersize of memory is not known"))
    }

    /** has_buffersize, as written: it calls buffersize, which raises when the
        size is unknown, so it never answers false. */
    function HasBuffersize(): (r: Result<bool, SimError>)
      reads this
      ensures r.Ok? <==> size.Some?
      ensures r != Ok(false)
    {
      match Buffersize()
      case Ok(_) => Ok(true)
      case Err(e) => Err(e)
    }

    /** has_buffersize as evidently intended: whether the size is known. */
    function HasBuffersizeIntended(): (b: bool)
      reads this
      ensures b <==> Buffersize().Ok?
    {
      size.Some?
    }

    /** Where the intended answer is false, the code raises instead. */
    lemma UnknownSizeRaises()
      requires size.None?
      ensures !HasBuffersizeIntended()
      ensures HasBuffersize() == Err(StructuralError("Buffersize of memory is not known"))
    {
    }

    predicate IsValid()
      reads this
    {
      status == "valid"
    }

    /** free: the region is no longer valid. */
    method Free()
      modifies this`status
      ensures status == "freed" && !IsValid()
    {
      status := "freed";
    }

    /** A read of an offset never written yields a symbol whose name starts
        with the region name and the offset, and never raises. */
    lemma FailedReadNamesRegion(address: SimAddress, readSize: nat, bigendian: bool, j: int)
      requires address.offset <= j < address.offset + readSize && j !in mem
      ensures var v := Get(address, readSize, bigendian);
              && v.IsSymbol() && !v.nonNegative.IsDefined()
              && v.name[..|name| + 1] == name + "["
    {
    }

    /** get: a failed overlay read becomes a symbol that names the region,
        the offset and the error, instead of raising. */
    function Get(address: SimAddress, readSize: nat, bigendian: bool): (v: Value)
      reads this
      ensures OverlayRead(mem, address, readSize, bigendian).Ok? ==> v == OverlayRead(mem, address, readSize, bigendian).value
      ensures OverlayRead(mem, address, readSize, bigendian).Err? ==>
                v == Symbol(name + "[" + Str(address.offset) + "]" + " (value not retrieved: "
                            + OverlayRead(mem, address, readSize, bigendian).error + ")", SimUndefinedBool)
    {
      match OverlayRead(mem, address, readSize, bigendian)
      case Ok(v) => v
      case Err(e) => Symbol(name + "[" + Str(address.offset) + "]" + " (value not retrieved: " + e + ")", SimUndefinedBool)
    }
  }
}
