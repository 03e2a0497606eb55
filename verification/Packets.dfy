/** Building and parsing Ethernet frames with up to two 802.1Q tags, and ARP packets. */
module Packets {
  import opened Basics

  const TPID: seq<Byte> := [0x81, 0x00]

  /** A buffer and the position up to which it has been written: `FrameBuilder` and `ARPBuilder`. */
  class Writer {
    const buf: array<Byte>
    var pos: nat

    ghost predicate Valid()
      reads this
    {
      pos <= buf.Length
    }

    ghost function Written(): seq<Byte>
      reads this, buf
      requires Valid()
    {
      buf[..pos]
    }

    constructor (buf: array<Byte>)
      ensures Valid() && this.buf == buf && pos == 0
    {
      this.buf := buf;
      pos := 0;
    }

    /** `buf[pos..pos + n].copy_from_slice(bytes); pos += n`. */
    method Put(bytes: seq<Byte>)
      requires Valid() && pos + |bytes| <= buf.Length
      modifies this, buf
      ensures Valid() && pos == old(pos) + |bytes| && Written() == old(Written()) + bytes
      ensures buf[pos..] == old(buf[pos + |bytes|..])
    {
      var i := 0;
      while i < |bytes|
        invariant i <= |bytes| && pos == old(pos)
        invariant buf[..pos] == old(buf[..pos]) && buf[pos..pos + i] == bytes[..i]
        invariant forall k | pos + i <= k < buf.Length :: buf[k] == old(buf[k])
      {
        buf[pos + i] := bytes[i];
        i := i + 1;
      }
      pos := pos + |bytes|;
    }

    /** A chain of builder steps. */
    method PutAll(fields: seq<seq<Byte>>)
      requires Valid() && pos + |Concat(fields)| <= buf.Length
      modifies this, buf
      ensures Valid() && Written() == old(Written()) + Concat(fields)
      ensures buf[pos..] == old(buf[pos + |Concat(fields)|..])
    {
      for i := 0 to |fields|
        invariant Valid() && Written() == old(Written()) + Concat(fields[..i])
        invariant pos + |Concat(fields[i..])| == old(pos) + |Concat(fields)|
        invariant buf[pos..] == old(buf[..])[pos..]
      {
        ConcatStep(fields, i);
        Put(fields[i]);
      }
      assert fields[..|fields|] == fields && Concat(fields[|fields|..]) == [];
    }
  }

  function Concat(fields: seq<seq<Byte>>): seq<Byte> {
    if fields == [] then [] else fields[0] + Concat(fields[1..])
  }

  lemma {:induction false} ConcatStep(fields: seq<seq<Byte>>, i: nat)
    requires i < |fields|
    ensures Concat(fields[..i + 1]) == Concat(fields[..i]) + fields[i]
    ensures Concat(fields[i..]) == fields[i] + Concat(fields[i + 1..])
    decreases i
  {
    assert fields[i..][1..] == fields[i + 1..];
    if i == 0 {
      assert fields[..1][1..] == [];
    } else {
      ConcatStep(fields[1..], i - 1);
      assert fields[..i + 1][1..] == fields[1..][..i] && fields[..i][1..] == fields[1..][..i - 1];
    }
  }

  lemma {:induction false} ConcatAppend(xs: seq<seq<Byte>>, ys: seq<seq<Byte>>)
    ensures Concat(xs + ys) == Concat(xs) + Concat(ys)
  {
    if xs == [] {
      assert xs + ys == ys;
    } else {
      assert (xs + ys)[1..] == xs[1..] + ys;
      ConcatAppend(xs[1..], ys);
    }
  }

  // ---- Ethernet ----------------------------------------------------------

  /** The tag identifier is 0x8100, sent high byte first. */
  lemma TagIdentifier()
    ensures TPID == BigEndian(0x8100) == [0x81, 0x00] && FromBigEndian([0x81, 0x00]) == 0x8100
  {
  }

  /** At most two tags. */
  datatype Parts = Parts(dest: seq<Byte>, src: seq<Byte>, tags: seq<seq<Byte>>, ethertype: seq<Byte>,
                         payload: seq<Byte>)
  {
    predicate Valid() {
      |dest| == 6 && |src| == 6 && |tags| <= 2 && |ethertype| == 2 && forall t | t in tags :: |t| == 2
    }
  }

  /** The tag identifier and the tag, for each tag. */
  function TagFields(tags: seq<seq<Byte>>): seq<seq<Byte>> {
    if tags == [] then [] else [TPID, tags[0]] + TagFields(tags[1..])
  }

  function TagBytes(tags: seq<seq<Byte>>): seq<Byte> { Concat(TagFields(tags)) }

  function Layout(f: Parts): seq<Byte> { Concat([f.dest, f.src] + TagFields(f.tags) + [f.ethertype, f.payload]) }

  method BuildFrame(buf: array<Byte>, f: Parts) returns (end: nat)
    requires f.Valid() && |Layout(f)| <= buf.Length
    modifies buf
    ensures end <= buf.Length && buf[..end] == Layout(f) && buf[end..] == old(buf[|Layout(f)|..])
  {
    var w := new Writer(buf);
    w.PutAll([f.dest, f.src] + TagFields(f.tags) + [f.ethertype, f.payload]);
    end := w.pos;
  }

  lemma LayoutIs(f: Parts)
    ensures Layout(f) == f.dest + f.src + TagBytes(f.tags) + (f.ethertype + f.payload)
  {
    ConcatAppend([f.dest, f.src] + TagFields(f.tags), [f.ethertype, f.payload]);
    ConcatAppend([f.dest, f.src], TagFields(f.tags));
    ConcatTwo(f.dest, f.src);
    ConcatTwo(f.ethertype, f.payload);
  }

  lemma ConcatTwo(x: seq<Byte>, y: seq<Byte>)
    ensures Concat([x, y]) == x + y
  {
    assert [x, y][1..] == [y] && [y][1..] == [];
    assert Concat([y]) == y;
  }

  /** Where the ethertype is: past all tags. `None` where the parser would run off the end. */
  function SkipTags(bytes: seq<Byte>, i: nat): (r: Option<nat>)
    ensures r.Some? ==> i <= r.value && r.value + 2 <= |bytes|
    decreases |bytes| - i
  {
    if |bytes| < i + 2 then None
    else if bytes[i..i + 2] != TPID then Some(i)
    else if |bytes| < i + 4 then None
    else SkipTags(bytes, i + 4)
  }

  /** The loop of `ethertype` and of `payload_with_crc`. */
  method FindEtherType(bytes: seq<Byte>) returns (r: Option<nat>)
    requires |bytes| >= 12
    ensures r == SkipTags(bytes, 12)
  {
    var i := 12;
    while true
      invariant 12 <= i <= |bytes| && SkipTags(bytes, i) == SkipTags(bytes, 12)
      decreases |bytes| - i
    {
      if |bytes| < i + 2 {
        return None;
      }
      if bytes[i..i + 2] != TPID {
        return Some(i);
      }
      if |bytes| < i + 4 {
        return None;
      }
      i := i + 4;
    }
  }

  function Dest(bytes: seq<Byte>): seq<Byte>
    requires |bytes| >= 12
  {
    bytes[0..6]
  }

  function Src(bytes: seq<Byte>): seq<Byte>
    requires |bytes| >= 12
  {
    bytes[6..12]
  }

  lemma NoTagBytes()
    ensures TagBytes([]) == []
  {
  }

  lemma TagBytesCons(tags: seq<seq<Byte>>)
    requires tags != []
    ensures TagBytes(tags) == TPID + tags[0] + TagBytes(tags[1..])
  {
    ConcatAppend([TPID, tags[0]], TagFields(tags[1..]));
    ConcatTwo(TPID, tags[0]);
  }

  lemma {:induction false} SkipBuilt(pre: seq<Byte>, tags: seq<seq<Byte>>, rest: seq<Byte>)
    requires forall t | t in tags :: |t| == 2
    ensures SkipTags(pre + TagBytes(tags) + rest, |pre|) ==
            SkipTags(pre + TagBytes(tags) + rest, |pre| + |TagBytes(tags)|)
    decreases |tags|
  {
    if tags == [] {
      NoTagBytes();
    } else {
      hide TagBytes;
      TagBytesCons(tags);
      OneTag(pre, tags[0], TagBytes(tags[1..]), rest);
      SkipBuilt(pre + TPID + tags[0], tags[1..], rest);
    }
  }

  /** The parser steps over one tag. */
  lemma OneTag(pre: seq<Byte>, tag: seq<Byte>, tail: seq<Byte>, rest: seq<Byte>)
    requires |tag| == 2
    ensures
      var bytes := pre + (TPID + tag + tail) + rest;
      bytes == pre + TPID + tag + tail + rest && SkipTags(bytes, |pre|) == SkipTags(bytes, |pre| + 4)
  {
    hide SkipTags;
    Regroup(pre, TPID, tag, tail, rest);
    StepOver(pre + (TPID + tag + tail) + rest, |pre|);
  }

  lemma StepOver(bytes: seq<Byte>, i: nat)
    requires i + 4 <= |bytes| && bytes[i..i + 2] == TPID
    ensures SkipTags(bytes, i) == SkipTags(bytes, i + 4)
  {
  }

  lemma Regroup(pre: seq<Byte>, id: seq<Byte>, tag: seq<Byte>, tail: seq<Byte>, rest: seq<Byte>)
    ensures
      var bytes := pre + (id + tag + tail) + rest;
      bytes == pre + id + tag + tail + rest && bytes[|pre|..|pre| + |id|] == id
  {
  }

  /** Parsing returns what was built, for every tag list and payload, if and only if the ethertype is not the
      tag identifier itself. */
  lemma FrameRoundTrip(f: Parts)
    requires f.Valid()
    ensures |Layout(f)| >= 14 && Dest(Layout(f)) == f.dest && Src(Layout(f)) == f.src
    ensures
      var bytes, i := Layout(f), SkipTags(Layout(f), 12);
      (i.Some? && bytes[i.value..i.value + 2] == f.ethertype && bytes[i.value + 2..] == f.payload) <==>
      f.ethertype != TPID
  {
    hide Concat, TagFields;
    var pre := f.dest + f.src;
    var bytes := Layout(f);
    var at := |pre| + |TagBytes(f.tags)|;
    LayoutIs(f);
    SkipBuilt(pre, f.tags, f.ethertype + f.payload);
    assert bytes[at..at + 2] == f.ethertype && bytes[at + 2..] == f.payload;
  }

  /** An empty, untagged frame whose ethertype is the tag identifier: no ethertype is found. */
  lemma TagForType(f: Parts)
    requires f == Parts([1, 1, 1, 1, 1, 1], [2, 2, 2, 2, 2, 2], [], TPID, [])
    ensures f.Valid() && SkipTags(Layout(f), 12) == None
  {
    hide SkipTags;
    LayoutIs(f);
    assert TagBytes([]) == [];
    assert Layout(f) == f.dest + f.src + TPID;
    PastTheEnd(Layout(f));
  }

  lemma PastTheEnd(bytes: seq<Byte>)
    requires |bytes| == 14 && bytes[12..14] == TPID
    ensures SkipTags(bytes, 12) == None
  {
  }

  // ---- ARP ---------------------------------------------------------------

  type Word = w: nat | w < 0x1_0000

  function BigEndian(w: Word): seq<Byte> { [w / 256, w % 256] }

  function FromBigEndian(bytes: seq<Byte>): Word
    requires |bytes| == 2
  {
    var hi: nat, lo: nat := bytes[0], bytes[1];
    hi * 256 + lo
  }

  datatype Arp = Arp(hspace: Word, pspace: Word, hlen: Byte, plen: Byte, opcode: Word,
                     sha: seq<Byte>, spa: seq<Byte>, tha: seq<Byte>, tpa: seq<Byte>)

  function ArpLayout(a: Arp): seq<Byte> {
    Concat(ArpFields(a))
  }

  function ArpFields(a: Arp): seq<seq<Byte>> {
    [BigEndian(a.hspace), BigEndian(a.pspace), [a.hlen], [a.plen], BigEndian(a.opcode), a.sha, a.spa, a.tha, a.tpa]
  }

  /** The accessors, all at once. `None` where one of them would run off the end. */
  function ArpParse(b: seq<Byte>): Option<Arp> {
    if |b| < 8 then None
    else
      var h: nat, p: nat := b[4], b[5];
      if |b| < 8 + 2 * h + 2 * p then None
      else Some(Arp(FromBigEndian(b[0..2]), FromBigEndian(b[2..4]), h, p, FromBigEndian(b[6..8]),
               b[8..8 + h], b[8 + h..8 + h + p], b[8 + h + p..8 + h + p + h], b[8 + h + p + h..8 + h + p + h + p]))
  }

  method BuildArp(buf: array<Byte>, a: Arp) returns (end: nat)
    requires |ArpLayout(a)| <= buf.Length
    modifies buf
    ensures end <= buf.Length && buf[..end] == ArpLayout(a)
  {
    var w := new Writer(buf);
    w.PutAll(ArpFields(a));
    end := w.pos;
  }

  predicate LengthsMatch(a: Arp) { |a.sha| == |a.tha| == a.hlen && |a.spa| == |a.tpa| == a.plen }

  lemma ArpBytes(a: Arp)
    ensures ArpLayout(a) == BigEndian(a.hspace) + BigEndian(a.pspace) + [a.hlen, a.plen] + BigEndian(a.opcode)
                            + (a.sha + a.spa + a.tha + a.tpa)
  {
    hide Concat;
    var addresses := [a.sha] + ([a.spa] + ([a.tha] + [a.tpa]));
    ConcatOne(a.tpa);
    ConcatCons(a.tha, [a.tpa]);
    ConcatCons(a.spa, [a.tha] + [a.tpa]);
    ConcatCons(a.sha, [a.spa] + ([a.tha] + [a.tpa]));
    var rest := [[a.plen]] + ([BigEndian(a.opcode)] + addresses);
    ConcatCons(BigEndian(a.opcode), addresses);
    ConcatCons([a.plen], [BigEndian(a.opcode)] + addresses);
    ConcatCons([a.hlen], rest);
    ConcatCons(BigEndian(a.pspace), [[a.hlen]] + rest);
    ConcatCons(BigEndian(a.hspace), [BigEndian(a.pspace)] + ([[a.hlen]] + rest));
    assert ArpFields(a) == [BigEndian(a.hspace)] + ([BigEndian(a.pspace)] + ([[a.hlen]] + rest));
  }

  lemma ConcatOne(x: seq<Byte>)
    ensures Concat([x]) == x
  {
  }

  lemma ConcatCons(x: seq<Byte>, rest: seq<seq<Byte>>)
    ensures Concat([x] + rest) == x + Concat(rest)
  {
  }

  lemma ArpHeader(a: Arp)
    ensures
      var b := ArpLayout(a);
      && |b| == 8 + |a.sha| + |a.spa| + |a.tha| + |a.tpa| && b[4] == a.hlen && b[5] == a.plen
      && FromBigEndian(b[0..2]) == a.hspace && FromBigEndian(b[2..4]) == a.pspace && FromBigEndian(b[6..8]) == a.opcode
      && b[8..] == a.sha + a.spa + a.tha + a.tpa
  {
    var b := ArpLayout(a);
    ArpBytes(a);
    assert b[0..2] == BigEndian(a.hspace) && b[2..4] == BigEndian(a.pspace) && b[6..8] == BigEndian(a.opcode);
  }

  /** The accessors return every field that was built if and only if the length fields are the lengths. */
  lemma ArpRoundTrip(a: Arp)
    ensures ArpParse(ArpLayout(a)) == Some(a) <==> LengthsMatch(a)
  {
    ArpHeader(a);
    var b, h: nat, p: nat := ArpLayout(a), a.hlen, a.plen;
    if LengthsMatch(a) {
      assert b[8..8 + h] == b[8..][..h] == a.sha;
      assert b[8 + h..8 + h + p] == b[8..][h..h + p] == a.spa;
      assert b[8 + h + p..8 + h + p + h] == b[8..][h + p..h + p + h] == a.tha;
      assert b[8 + h + p + h..8 + h + p + h + p] == b[8..][h + p + h..h + p + h + p] == a.tpa;
    }
  }

  /** `reply_writer`, for a parsed request. */
  function Reply(request: Arp, sha: seq<Byte>): Arp {
    Arp(request.hspace, request.pspace, request.hlen, request.plen, 2, sha, request.tpa, request.sha, request.tpa)
  }

  /** The reply that RFC 826 describes under "Packet Reception": the fields swapped, with the local hardware
      address as the sender's. */
  function Swapped(request: Arp, sha: seq<Byte>): Arp {
    request.(opcode := 2, sha := sha, spa := request.tpa, tha := request.sha, tpa := request.spa)
  }

  /** The reply to a received request parses back if and only if the request's hardware length is that of the local
      address, and is the described one if and only if the request asks for its own sender's address. */
  lemma ReplyRoundTrip(bytes: seq<Byte>, sha: seq<Byte>)
    requires ArpParse(bytes).Some?
    ensures
      var request := ArpParse(bytes).value;
      && (ArpParse(ArpLayout(Reply(request, sha))) == Some(Reply(request, sha)) <==> |sha| == request.hlen)
      && (Reply(request, sha) == Swapped(request, sha) <==> request.spa == request.tpa)
  {
    ArpRoundTrip(Reply(ArpParse(bytes).value, sha));
  }

  /** A request of a host with protocol address 1 for that of another with address 2. */
  const ASK := Arp(1, 0x800, 1, 1, 1, [5], [1], [0], [2])

  /** The reply names 2 twice, and with a longer hardware address it does not parse back. */
  lemma AskReply(request: Arp)
    requires request == ASK
    ensures ArpParse(ArpLayout(request)) == Some(request)
    ensures Reply(request, [6]) == Arp(1, 0x800, 1, 1, 2, [6], [2], [5], [2])
    ensures Swapped(request, [6]) == Arp(1, 0x800, 1, 1, 2, [6], [2], [5], [1])
    ensures ArpParse(ArpLayout(Reply(request, [6, 7]))) != Some(Reply(request, [6, 7]))
  {
    hide ArpLayout, ArpParse;
    ArpRoundTrip(request);
    ReplyRoundTrip(ArpLayout(request), [6, 7]);
  }
}
