/** The proxy's access-rights word. A `Permission` packs one 2-bit access
    level per resource into a single unsigned 32-bit value, `encoded`: the
    field of resource `r` is bits `2r` and `2r + 1`. The word travels as four
    big-endian bytes, answers "may `access` be used on `resource`?" (`Can`)
    and only ever gains bits (`SetAccess`). */
module Permissions {
  import opened Bitwise

  /** Go's `StripeResource`, an `int`. */
  type Resource = int

  /** Go's `Access`, an `int`. */
  type Access = int

  type byte = x: int | 0 <= x < 256

  // Resource identifiers. They are written out rather than counted off,
  // because the number of a resource is the position of its field.
  const ResourceAll: Resource := 0
  const ResourceBalance: Resource := 1
  const ResourceCharges: Resource := 2
  const ResourceCustomers: Resource := 3
  const ResourceDisputes: Resource := 4
  const ResourceEvents: Resource := 5
  const ResourceFileUploads: Resource := 6
  const ResourceRefunds: Resource := 7
  const ResourceTokens: Resource := 8
  const ResourceTransfers: Resource := 9
  const ResourceTransferReversals: Resource := 10

  // Access levels: bit 0 is the right to read, bit 1 the right to write.
  const None: Access := 0
  const Read: Access := 1
  const Write: Access := 2
  const ReadWrite: Access := 3

  /** A resource whose field lies inside the 32-bit word (sixteen fields). */
  predicate InRange(resource: Resource) {
    0 <= resource < 16
  }

  /** An access level that fits in one 2-bit field. */
  predicate IsLevel(access: Access) {
    0 <= access < 4
  }

  /** The meaning of a field: a field holding `level` grants `access` when
      each right that `access` asks for is among the rights in `level`. */
  predicate Grants(level: nat, access: nat) {
    && (access % 2 == 1 ==> level % 2 == 1)
    && (access / 2 % 2 == 1 ==> level / 2 % 2 == 1)
  }

  lemma ReadWriteIsReadOrWrite()
    ensures ReadWrite == Or(Read, Write)
  {
    assert Or(0, 1) == 1;
  }

  // ---------------------------------------------------------------------
  // The wire form: four bytes, most significant first.

  /** The bytes `MarshalBinary` writes. */
  function Encode(e: uint32): (bs: seq<byte>)
    ensures |bs| == 4 && Decode(bs) == e
  {
    assert e == (e / 0x100) * 0x100 + e % 0x100;
    assert e / 0x100 == (e / 0x1_0000) * 0x100 + e / 0x100 % 0x100;
    assert e / 0x1_0000 == (e / 0x100_0000) * 0x100 + e / 0x1_0000 % 0x100;
    [e / 0x100_0000, e / 0x1_0000 % 0x100, e / 0x100 % 0x100, e % 0x100]
  }

  /** The word `BinaryUnmarshaler` reads: the first four bytes, big-endian;
      any further bytes are ignored. */
  function Decode(data: seq<byte>): (e: uint32)
    requires |data| >= 4
    ensures e / 0x100_0000 == data[0] as int
    ensures e / 0x1_0000 % 0x100 == data[1] as int
    ensures e / 0x100 % 0x100 == data[2] as int
    ensures e % 0x100 == data[3] as int
  {
    var e := data[0] as int * 0x100_0000 + data[1] as int * 0x1_0000 + data[2] as int * 0x100 + data[3] as int;
    assert e / 0x100 == data[0] as int * 0x1_0000 + data[1] as int * 0x100 + data[2] as int;
    assert e / 0x1_0000 == data[0] as int * 0x100 + data[1] as int;
    e
  }

  /** Decoding and re-encoding gives back the first four bytes, so those four
      bytes, and nothing after them, determine the decoded word. */
  lemma DecodeEncode(data: seq<byte>)
    requires |data| >= 4
    ensures Encode(Decode(data)) == data[..4]
  {
  }

  lemma DecodeReadsFourBytes(data: seq<byte>, other: seq<byte>)
    requires |data| >= 4 && |other| >= 4 && data[..4] == other[..4]
    ensures Decode(data) == Decode(other)
  {
  }

  lemma EncodeExample()
    ensures Encode(0x0102_0304) == [1, 2, 3, 4]
  {
  }

  // ---------------------------------------------------------------------
  // Bit addressing.

  /** The field a resource addresses. Go computes `uint32(resource) * 2` in
      32-bit arithmetic, which drops the top bit of the identifier, so
      identifiers that agree modulo 2^31 address the same field. */
  function Slot(resource: Resource): (k: nat)
    ensures k < 0x8000_0000
    ensures 2 * k == 2 * (resource % TwoTo32) % TwoTo32
  {
    resource % TwoTo32 % 0x8000_0000
  }

  /** `resourceMask`: `access << (uint32(resource) * 2)` on Go's 64-bit
      `int`, truncated to 32 bits. A left shift fills with zeros whatever the
      sign of `access`, so a shift of 32 or more leaves nothing in the low
      32 bits. */
  function ResourceMask(resource: Resource, access: Access): (m: uint32)
    ensures access == None ==> m == 0
    ensures 16 <= Slot(resource) ==> m == 0
  {
    var shift := 2 * (resource % TwoTo32) % TwoTo32;
    if shift < 32 then access * Pow2(shift) % TwoTo32 else 0
  }

  /** Only the low 32 bits of the level reach the mask, so Go's 64-bit
      wrap-around of `access` cannot change it. */
  lemma MaskByLevelBits(resource: Resource, access: Access)
    ensures ResourceMask(resource, access) == ResourceMask(resource, access % TwoTo32)
  {
    var shift := 2 * (resource % TwoTo32) % TwoTo32;
    if shift < 32 {
      var p := Pow2(shift);
      var q, r := access / TwoTo32, access % TwoTo32;
      Distribute(q, r, p);
      WholeWordsDropped(q * p, r * p);
    }
  }

  lemma Distribute(q: int, r: int, p: int)
    ensures (q * TwoTo32 + r) * p == (q * p) * TwoTo32 + r * p
  {
  }

  lemma WholeWordsDropped(k: int, x: int)
    ensures (k * TwoTo32 + x) % TwoTo32 == x % TwoTo32
  {
  }

  /** Only the addressed field matters: a resource and its slot share a mask. */
  lemma MaskBySlot(resource: Resource, access: Access)
    ensures ResourceMask(resource, access) == ResourceMask(Slot(resource), access)
  {
    var k := Slot(resource);
    assert k % TwoTo32 == k;
    assert 2 * k % TwoTo32 == 2 * k;
  }

  lemma {:induction false} FieldZero(k: nat)
    ensures Field(0, k) == 0
  {
    if k > 0 {
      FieldZero(k - 1);
    }
  }

  /** `a * 4^k`, for a 2-bit `a`, holds `a` in field `k` and zero elsewhere. */
  lemma {:induction false} ScaledFields(a: nat, k: nat, q: nat)
    requires a < 4
    ensures Field(a * Pow4(k), q) == if q == k then a else 0
  {
    if k == 0 {
      if q > 0 {
        FieldZero(q - 1);
      }
    } else {
      assert a * Pow4(k) == 4 * (a * Pow4(k - 1));
      if q > 0 {
        ScaledFields(a, k - 1, q - 1);
      }
    }
  }

  /** For a resource inside the word and a 2-bit level, the mask is the
      level times `4^resource`, below 2^32, so no bit is lost. */
  lemma MaskValue(resource: Resource, access: Access)
    requires InRange(resource) && IsLevel(access)
    ensures ResourceMask(resource, access) == access * Pow4(resource)
  {
    Pow2Even(resource);
    MaskShift(resource);
    ScaledBelow(access, resource);
  }

  lemma MaskShift(resource: Resource)
    requires InRange(resource)
    ensures 2 * (resource % TwoTo32) % TwoTo32 == 2 * resource
  {
  }

  lemma ScaledBelow(access: Access, resource: Resource)
    requires InRange(resource) && IsLevel(access)
    ensures 0 <= access * Pow4(resource) < TwoTo32
  {
    var p := Pow4(resource);
    Pow4Monotone(resource + 1, 16);
    Pow4Sixteen();
    calc {
      access * p;
    <= { MultiplyMonotone(access, 3, p); }
      3 * p;
    <  4 * p;
    <= TwoTo32;
    }
  }

  lemma MultiplyMonotone(a: nat, b: nat, c: nat)
    requires a <= b
    ensures a * c <= b * c
  {
  }

  /** ... and it sets bits in the resource's own field only. */
  lemma MaskFields(resource: Resource, access: Access, k: nat)
    requires InRange(resource) && IsLevel(access)
    ensures Field(ResourceMask(resource, access), k) == if k == resource then access else 0
  {
    MaskValue(resource, access);
    ScaledFields(access, resource, k);
  }

  /** Level 4 on the balance resource sets a bit in the field of charges. */
  lemma MaskSpillsOver()
    ensures Field(ResourceMask(ResourceBalance, 4), ResourceCharges) == 1
  {
    assert Pow2(2) == 4;
    assert ResourceMask(ResourceBalance, 4) == 16;
  }

  // ---------------------------------------------------------------------
  // The authorization check.

  /** `Can` on the value `e`: every bit of `access` is set in the
      resource's mask position of `e`, or in the wildcard's. An empty mask
      passes the test, so `None`, and any level on a resource beyond the
      sixteen fields, is always granted. */
  predicate Authorized(e: uint32, access: Access, resource: Resource): (ok: bool)
    ensures access == None ==> ok
    ensures 16 <= Slot(resource) ==> ok
  {
    var mask := ResourceMask(resource, access);
    var allMask := ResourceMask(ResourceAll, access);
    Within(mask, e) || Within(allMask, e)
  }

  lemma LevelWithin(a: nat, f: nat)
    requires a < 4 && f < 4
    ensures Within(a, f) <==> Grants(f, a)
  {
    assert And(a / 2, f / 2) == if a / 2 == 1 && f / 2 == 1 then 1 else 0;
    assert And(a, f) == 2 * And(a / 2, f / 2) + (if a % 2 == 1 && f % 2 == 1 then 1 else 0);
  }

  /** The mask test against one field: every requested bit is in the field
      exactly when the field grants the level. */
  lemma MaskWithin(e: uint32, access: Access, resource: Resource)
    requires InRange(resource) && IsLevel(access)
    ensures Within(ResourceMask(resource, access), e) <==> Grants(Field(e, resource), access)
  {
    var m := ResourceMask(resource, access);
    Pow4Sixteen();
    forall k | 0 <= k < 16
      ensures Field(m, k) == if k == resource then access else 0
    {
      MaskFields(resource, access, k);
    }
    LevelWithin(access, Field(e, resource));
    if Within(m, e) {
      WithinFieldwise(m, e, 16);
      assert Within(Field(m, resource), Field(e, resource));
    }
    if Grants(Field(e, resource), access) {
      forall k | 0 <= k < 16
        ensures Within(Field(m, k), Field(e, k))
      {
        if k != resource {
          AndZero(Field(e, k));
        }
      }
      FieldwiseWithin(m, e, 16);
    }
  }

  /** What `Can` decides, field by field: the resource's own field or the
      wildcard's field grants the level. */
  lemma AuthorizedByFields(e: uint32, access: Access, resource: Resource)
    requires InRange(resource) && IsLevel(access)
    ensures Authorized(e, access, resource) <==>
              Grants(Field(e, resource), access) || Grants(Field(e, ResourceAll), access)
  {
    MaskWithin(e, access, resource);
    MaskWithin(e, access, ResourceAll);
  }

  /** A level granted on the wildcard is granted on every resource. */
  lemma WildcardAuthorizesAll(e: uint32, access: Access, resource: Resource)
    requires Authorized(e, access, ResourceAll)
    ensures Authorized(e, access, resource)
  {
  }

  /** The same, from the wildcard's field: a wildcard field that grants the
      level authorizes it on any resource identifier at all. */
  lemma WildcardFieldAuthorizesAll(e: uint32, access: Access, resource: Resource)
    requires IsLevel(access) && Grants(Field(e, ResourceAll), access)
    ensures Authorized(e, access, resource)
  {
    MaskWithin(e, access, ResourceAll);
  }

  /** Read-write access includes read access and write access. */
  lemma ReadWriteAuthorizesReadAndWrite(e: uint32, resource: Resource)
    requires Authorized(e, ReadWrite, resource)
    ensures Authorized(e, Read, resource) && Authorized(e, Write, resource)
  {
    var k := Slot(resource);
    MaskBySlot(resource, ReadWrite);
    MaskBySlot(resource, Read);
    MaskBySlot(resource, Write);
    if k < 16 {
      AuthorizedByFields(e, ReadWrite, k);
      AuthorizedByFields(e, Read, k);
      AuthorizedByFields(e, Write, k);
    } else {
      AndZero(e);
      AuthorizedByFields(e, ReadWrite, ResourceAll);
      AuthorizedByFields(e, Read, ResourceAll);
      AuthorizedByFields(e, Write, ResourceAll);
    }
  }

  /** A field holding only Read does not answer a ReadWrite query; then
      only a wildcard field holding ReadWrite does. */
  lemma ReadFieldRefusesReadWrite(e: uint32, resource: Resource)
    requires InRange(resource) && Field(e, resource) == Read
    ensures Authorized(e, ReadWrite, resource) <==> Field(e, ResourceAll) == ReadWrite
  {
    AuthorizedByFields(e, ReadWrite, resource);
  }

  /** A word with more bits answers yes wherever a word with fewer bits did. */
  lemma AuthorizedMonotone(e: uint32, e': uint32, access: Access, resource: Resource)
    requires Within(e, e') && Authorized(e, access, resource)
    ensures Authorized(e', access, resource)
  {
    var mask := ResourceMask(resource, access);
    var allMask := ResourceMask(ResourceAll, access);
    if Within(mask, e) {
      WithinTransitive(mask, e, e');
    } else {
      WithinTransitive(allMask, e, e');
    }
  }

  // ---------------------------------------------------------------------
  // Granting access.

  /** The word `SetAccess` leaves: the masks of the listed resources ORed
      into `e` one after the other. It only adds bits. */
  function Granted(e: uint32, access: Access, resources: seq<Resource>): (r: uint32)
    ensures Within(e, r)
    decreases |resources|
  {
    if resources == [] then WithinReflexive(e); e
    else
      var prior := Granted(e, access, resources[..|resources| - 1]);
      var mask := ResourceMask(resources[|resources| - 1], access);
      WithinOr(prior, mask);
      WithinTransitive(e, prior, Or(prior, mask));
      Or32(prior, mask)
  }

  /** After the grant, every listed resource's mask is in the word. */
  lemma {:induction false} GrantedIncludes(e: uint32, access: Access, resources: seq<Resource>, i: nat)
    requires i < |resources|
    ensures Within(ResourceMask(resources[i], access), Granted(e, access, resources))
    decreases |resources|
  {
    var n := |resources| - 1;
    var prior := Granted(e, access, resources[..n]);
    var mask := ResourceMask(resources[n], access);
    assert Granted(e, access, resources) == Or(prior, mask);
    WithinOr(prior, mask);
    if i < n {
      assert resources[..n][i] == resources[i];
      GrantedIncludes(e, access, resources[..n], i);
      WithinTransitive(ResourceMask(resources[i], access), prior, Or(prior, mask));
    }
  }

  /** Every listed resource is authorized at the granted level afterwards. */
  lemma GrantedAuthorizes(e: uint32, access: Access, resources: seq<Resource>, resource: Resource)
    requires resource in resources
    ensures Authorized(Granted(e, access, resources), access, resource)
  {
    var i :| 0 <= i < |resources| && resources[i] == resource;
    GrantedIncludes(e, access, resources, i);
  }

  /** A grant keeps every answer that was yes. */
  lemma GrantedKeepsAuthorized(e: uint32, access: Access, resources: seq<Resource>,
                               asked: Access, resource: Resource)
    requires Authorized(e, asked, resource)
    ensures Authorized(Granted(e, access, resources), asked, resource)
  {
    AuthorizedMonotone(e, Granted(e, access, resources), asked, resource);
  }

  /** A grant ORs one fixed word, the grant applied to no access, into `e`. */
  lemma {:induction false} GrantedIsUnion(e: uint32, access: Access, resources: seq<Resource>)
    ensures Granted(e, access, resources) == Or(e, Granted(0, access, resources))
    decreases |resources|
  {
    if resources == [] {
      OrZero(e);
    } else {
      var n := |resources| - 1;
      var mask := ResourceMask(resources[n], access);
      GrantedIsUnion(e, access, resources[..n]);
      OrAssociative(e, Granted(0, access, resources[..n]), mask);
    }
  }

  /** Granting the same access on the same resources twice changes nothing
      more than granting it once. */
  lemma GrantedIdempotent(e: uint32, access: Access, resources: seq<Resource>)
    ensures Granted(Granted(e, access, resources), access, resources) == Granted(e, access, resources)
  {
    var once := Granted(e, access, resources);
    var u := Granted(0, access, resources);
    GrantedIsUnion(e, access, resources);
    GrantedIsUnion(once, access, resources);
    OrAssociative(e, u, u);
    OrIdempotent(u);
  }

  /** For resources and a level inside the layout, a grant ORs the level
      into the field of each listed resource and leaves every other field
      as it was. */
  lemma {:induction false} GrantedFields(e: uint32, access: Access, resources: seq<Resource>, k: nat)
    requires IsLevel(access) && k < 16
    requires forall i :: 0 <= i < |resources| ==> InRange(resources[i])
    ensures Field(Granted(e, access, resources), k) ==
              if k in resources then Or(Field(e, k), access) else Field(e, k)
    decreases |resources|
  {
    if resources != [] {
      var n := |resources| - 1;
      var rest := resources[..n];
      var last := resources[n];
      var prior := Granted(e, access, rest);
      assert resources == rest + [last];
      GrantedFields(e, access, rest, k);
      FieldOr(prior, ResourceMask(last, access), k);
      MaskFields(last, access, k);
      if k == last {
        if k in rest {
          OrAssociative(Field(e, k), access, access);
          OrIdempotent(access);
        }
      } else {
        OrZero(Field(prior, k));
      }
    }
  }

  /** Resources left out of a grant keep their fields. */
  lemma GrantedFrame(e: uint32, access: Access, resources: seq<Resource>, k: nat)
    requires IsLevel(access) && k < 16 && k !in resources
    requires forall i :: 0 <= i < |resources| ==> InRange(resources[i])
    ensures Field(Granted(e, access, resources), k) == Field(e, k)
  {
    GrantedFields(e, access, resources, k);
  }

  // ---------------------------------------------------------------------
  // Worked cases.

  /** Read on Charges, granted on an empty word, permits reading Charges
      and nothing more on it. */
  lemma ReadGrantOnly()
    ensures var e := Granted(0, Read, [ResourceCharges]);
      && Authorized(e, Read, ResourceCharges)
      && !Authorized(e, Write, ResourceCharges)
      && !Authorized(e, ReadWrite, ResourceCharges)
  {
    var e := Granted(0, Read, [ResourceCharges]);
    GrantedFields(0, Read, [ResourceCharges], ResourceCharges);
    GrantedFields(0, Read, [ResourceCharges], ResourceAll);
    FieldZero(ResourceCharges);
    FieldZero(ResourceAll);
    assert Or(0, 1) == 1;
    AuthorizedByFields(e, Read, ResourceCharges);
    AuthorizedByFields(e, Write, ResourceCharges);
    AuthorizedByFields(e, ReadWrite, ResourceCharges);
  }

  /** Read and then Write on Charges add up to ReadWrite on Charges. */
  lemma ReadThenWriteGivesReadWrite()
    ensures Authorized(Granted(Granted(0, Read, [ResourceCharges]), Write, [ResourceCharges]),
                       ReadWrite, ResourceCharges)
  {
    var once := Granted(0, Read, [ResourceCharges]);
    var twice := Granted(once, Write, [ResourceCharges]);
    GrantedFields(0, Read, [ResourceCharges], ResourceCharges);
    GrantedFields(once, Write, [ResourceCharges], ResourceCharges);
    FieldZero(ResourceCharges);
    assert Or(0, 1) == 1;
    assert Or(1, 2) == 3 by {
      assert Or(0, 1) == 1;
    }
    AuthorizedByFields(twice, ReadWrite, ResourceCharges);
  }

  /** Read on the wildcard alone permits reading Customers, but not
      writing them. */
  lemma WildcardReadOnly()
    ensures var e := Granted(0, Read, [ResourceAll]);
      && Authorized(e, Read, ResourceCustomers)
      && !Authorized(e, Write, ResourceCustomers)
  {
    var e := Granted(0, Read, [ResourceAll]);
    GrantedFields(0, Read, [ResourceAll], ResourceAll);
    GrantedFields(0, Read, [ResourceAll], ResourceCustomers);
    FieldZero(ResourceAll);
    FieldZero(ResourceCustomers);
    assert Or(0, 1) == 1;
    AuthorizedByFields(e, Read, ResourceCustomers);
    AuthorizedByFields(e, Write, ResourceCustomers);
  }

  // ---------------------------------------------------------------------
  // The object.

  /** `Permission`: the packed word, owned by one holder and changed in
      place. */
  class Permission {
    var encoded: uint32

    /** `NewPermission`: wraps any 32-bit value as it is. */
    constructor (initialValue: uint32)
      ensures encoded == initialValue
    {
      encoded := initialValue;
    }

    /** Four bytes, big-endian, that decode back to the word. */
    method MarshalBinary() returns (bs: seq<byte>)
      ensures bs == Encode(encoded)
      ensures |bs| == 4 && Decode(bs) == encoded
    {
      bs := [encoded / 0x100_0000, encoded / 0x1_0000 % 0x100, encoded / 0x100 % 0x100, encoded % 0x100];
    }

    /** Overwrites the word with the first four bytes of `data`, which the
        word then encodes back to. */
    method BinaryUnmarshaler(data: seq<byte>)
      requires |data| >= 4
      modifies this
      ensures encoded == Decode(data)
      ensures Encode(encoded) == data[..4]
    {
      encoded := data[0] as int * 0x100_0000 + data[1] as int * 0x1_0000 + data[2] as int * 0x100 + data[3] as int;
      DecodeEncode(data);
    }

    /** The authorization check, and what it means field by field. */
    method Can(access: Access, resource: Resource) returns (ok: bool)
      ensures ok == Authorized(encoded, access, resource)
      ensures InRange(resource) && IsLevel(access) ==>
                (ok <==> Grants(Field(encoded, resource), access) || Grants(Field(encoded, ResourceAll), access))
    {
      var mask := ResourceMask(resource, access);
      var allMask := ResourceMask(ResourceAll, access);
      ok := And(mask, encoded) == mask || And(allMask, encoded) == allMask;
      if InRange(resource) && IsLevel(access) {
        AuthorizedByFields(encoded, access, resource);
      }
    }

    /** ORs the mask of each listed resource into the word, in order. */
    method SetAccess(access: Access, resources: seq<Resource>)
      modifies this
      ensures encoded == Granted(old(encoded), access, resources)
      ensures Within(old(encoded), encoded)
      ensures forall r :: r in resources ==> Authorized(encoded, access, r)
    {
      for i := 0 to |resources|
        invariant encoded == Granted(old(encoded), access, resources[..i])
      {
        assert resources[..i + 1][..i] == resources[..i];
        encoded := Or32(encoded, ResourceMask(resources[i], access));
      }
      assert resources[..|resources|] == resources;
      forall r | r in resources
        ensures Authorized(encoded, access, r)
      {
        GrantedAuthorizes(old(encoded), access, resources, r);
      }
    }
  }
}
