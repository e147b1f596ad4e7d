# Access-rights word of the proxy, in Dafny

This project models the permission word of the API proxy (`proxy/permissions.go`)
and proves what it does.

A `Permission` holds one unsigned 32-bit value, `encoded`. It is read as sixteen
2-bit fields. Resource `r` owns bits `2r` and `2r + 1`. A field holds an access level:
bit 0 is the right to read and bit 1 the right to write. So None = 0, Read = 1,
Write = 2 and ReadWrite = 3 = Read | Write. Resource 0, `ResourceAll`, is the wildcard.
The identifiers 1 to 10 name resources: balance, charges, customers, disputes, events,
file uploads, refunds, tokens, transfers and transfer reversals.

The word supports four operations:
- it is written as four big-endian bytes (`MarshalBinary`);
- it is read back from the first four bytes of a buffer (`BinaryUnmarshaler`);
- `Can(access, resource)` asks whether every bit of `access` is set, either in the
  resource's own field or in the wildcard's field;
- `SetAccess(access, resources...)` ORs the level into the field of each listed resource.

Files:
- `bitwise.dfy`, module `Bitwise`. Go's `uint32` is an integer subset type. The operators
  `&` and `|` are defined one bit at a time. It also has the view of a word as 2-bit
  fields (`Field`) and the lemmas that `&` and `|` act field by field. The order
  "every bit of x is in y" (`Within`, the test `x & y == x`) is proved transitive.
- `permissions.dfy`, module `Permissions`. It holds the constants, the byte form
  (`Encode`, `Decode`), `ResourceMask`, the value-level check `Authorized`, and the
  value-level grant `Granted`. It also holds the class `Permission`, with the field
  `encoded` and the methods `MarshalBinary`, `BinaryUnmarshaler`, `Can` and `SetAccess`.

`resourceMask` is modelled with Go's exact arithmetic. `uint32(resource) * 2` wraps modulo
2^32, so only the resource identifier modulo 2^31 matters (`Slot`). `access` is a 64-bit
`int` shifted left and then truncated to 32 bits:
- a shift below 32 keeps `access * 2^shift mod 2^32`;
- a longer shift gives 0, whatever the sign of `access`, because a left shift fills
  with zeros.

The meaning of `Can` is given by an independent definition, `Grants(level, access)`:
each right that `access` asks for is in `level`. The lemmas tie `Can` to it field by
field. Three consequences follow from the code as written:
- `Can(None, r)` is true for every word and every `r`.
- A resource whose slot is 16 or more has an empty mask. `Can` therefore grants any
  level on it, whatever the word holds.
- Level 4 on the balance resource sets a bit in the field of charges.

## Model

| member | source | states |
|---|---|---|
| `Permissions.Encode` | proxy/permissions.go:58-62 | the bytes are exactly four, and their big-endian value (byte 0 most significant) is the word |
| `Permissions.DecodeEncode` | proxy/permissions.go:64-67 | decoding a buffer of at least four bytes and re-encoding gives back its first four bytes, so decoding is the inverse of encoding |
| `Permissions.DecodeReadsFourBytes` | proxy/permissions.go:64-67 | two buffers that agree on their first four bytes decode to the same word; later bytes are ignored |
| `Permissions.Decode` | proxy/permissions.go:64-67 | each of the first four bytes of the buffer sits in its own 8-bit position of the word, byte 0 the most significant and byte 3 the least |
| `Permissions.EncodeExample` | proxy/permissions.go:58-62 | the word 0x01020304 is written as the bytes 1, 2, 3, 4 |
| `Permissions.ReadWriteIsReadOrWrite` | proxy/permissions.go:43-48 | ReadWrite is the bitwise union of Read and Write |
| `Permissions.Slot` | proxy/permissions.go:70 | the 32-bit product `uint32(resource) * 2` is twice the identifier taken modulo 2^31 |
| `Permissions.ResourceMask` | proxy/permissions.go:69-71 | the mask of None is 0, and so is the mask of any level on a resource whose slot lies beyond the sixteen fields |
| `Permissions.MaskByLevelBits` | proxy/permissions.go:69-71 | the mask depends only on the level modulo 2^32, so the 64-bit wrap-around of Go's `int` cannot change it |
| `Permissions.MaskBySlot` | proxy/permissions.go:69-71 | identifiers with the same slot have the same mask |
| `Permissions.MaskValue` | proxy/permissions.go:69-71 | for a resource below 16 and a level 0..3 the mask is `level * 4^resource`, with nothing truncated |
| `Permissions.MaskFields` | proxy/permissions.go:69-71 | such a mask holds the level in the resource's field and zero in every other field |
| `Permissions.MaskSpillsOver` | proxy/permissions.go:70 | level 4 on the balance resource sets a bit in the field of the charges resource |
| `Permissions.MaskWithin` | proxy/permissions.go:74-76 | for a resource below 16 and a level 0..3, the test `mask & encoded == mask` holds exactly when the resource's field grants the level |
| `Permissions.AuthorizedByFields` | proxy/permissions.go:73-77 | `Can` is true exactly when the resource's own field or the wildcard's field grants the level |
| `Permissions.Authorized` | proxy/permissions.go:69-77 | the test of `Can` on a word: asking for None succeeds for every word and every resource, and any level is granted on a resource whose slot is 16 or more, whatever the word |
| `Permissions.WildcardAuthorizesAll` | proxy/permissions.go:75-76 | a level granted on `ResourceAll` is granted on every resource |
| `Permissions.WildcardFieldAuthorizesAll` | proxy/permissions.go:75-76 | if the wildcard field grants a level 0..3, `Can` grants it on every resource identifier |
| `Permissions.ReadWriteAuthorizesReadAndWrite` | proxy/permissions.go:73-77 | wherever ReadWrite is granted, Read and Write are each granted, for every resource identifier |
| `Permissions.ReadFieldRefusesReadWrite` | proxy/permissions.go:73-77 | if a resource's field holds only Read, ReadWrite is granted on it exactly when the wildcard field holds ReadWrite |
| `Permissions.AuthorizedMonotone` | proxy/permissions.go:76 | a word that keeps every bit of another word keeps every true answer of `Can` |
| `Permissions.Granted` | proxy/permissions.go:79-83 | the word after the grant keeps every bit of the word before it |
| `Permissions.GrantedIncludes` | proxy/permissions.go:79-83 | after the grant, the mask of each listed resource lies within the word |
| `Permissions.GrantedAuthorizes` | proxy/permissions.go:79-83 | after the grant, `Can(access, r)` holds for every listed `r` |
| `Permissions.GrantedKeepsAuthorized` | proxy/permissions.go:79-83 | every `Can` query that was true before a grant is true after it |
| `Permissions.GrantedIsUnion` | proxy/permissions.go:79-83 | a grant ORs one word, fixed by the level and the list, into the old word |
| `Permissions.GrantedIdempotent` | proxy/permissions.go:79-83 | applying the same grant twice gives the same word as applying it once |
| `Permissions.GrantedFields` | proxy/permissions.go:79-83 | for resources below 16 and a level 0..3, a listed resource's field becomes its old value OR the level; every other field is unchanged |
| `Permissions.GrantedFrame` | proxy/permissions.go:79-83 | fields of resources not listed in the grant are unchanged |
| `Permissions.ReadGrantOnly` | proxy/permissions.go:73-83 | after Read is granted on charges from an empty word, Read is granted on charges but Write and ReadWrite are not |
| `Permissions.ReadThenWriteGivesReadWrite` | proxy/permissions.go:73-83 | granting Read and then Write on charges grants ReadWrite on charges |
| `Permissions.WildcardReadOnly` | proxy/permissions.go:73-83 | after Read is granted on the wildcard only, Read on customers is granted and Write is not |
| `Bitwise.FieldAnd` | proxy/permissions.go:76 | each 2-bit field of `x & y` is the `&` of the two fields |
| `Bitwise.FieldOr` | proxy/permissions.go:81 | each 2-bit field of the bitwise OR of x and y is the OR of the two fields |
| `Bitwise.Or32` | proxy/permissions.go:81 | the bitwise OR of two 32-bit words is a 32-bit word in which every bit of either operand is set |
| `Bitwise.WithinTransitive` | proxy/permissions.go:76 | if every bit of x is in y and every bit of y is in z, every bit of x is in z |
| `Permissions.Permission.constructor` | proxy/permissions.go:54-56 | a new permission holds the given value unchanged |
| `Permissions.Permission.MarshalBinary` | proxy/permissions.go:58-62 | returns four bytes that are the big-endian form of the word and decode back to it |
| `Permissions.Permission.BinaryUnmarshaler` | proxy/permissions.go:64-67 | overwrites the word with the big-endian value of the first four bytes; the word re-encodes to exactly those bytes |
| `Permissions.Permission.Can` | proxy/permissions.go:73-77 | answers the mask test; for a resource below 16 and a level 0..3, that is "the resource's field or the wildcard's field grants the level" |
| `Permissions.Permission.SetAccess` | proxy/permissions.go:79-83 | the new word is the grant of the old one. It keeps every old bit, and `Can(access, r)` then holds for every listed `r` |

## Left out

- The `error` results of `MarshalBinary` and `BinaryUnmarshaler` are always nil in the code, so the model has no error result.
- `BinaryUnmarshaler` on fewer than four bytes panics in Go's `binary.BigEndian.Uint32`. This is the precondition `|data| >= 4`. The code has no length check and no error result: a longer buffer decodes from its first four bytes.
- `encoding/binary` is not part of this model. Its big-endian packing is written out with division and remainder by powers of 256.
- Go's `int` is modelled as an unbounded integer. The mask keeps only the low 32 bits of the shifted level, and `MaskByLevelBits` shows they depend on the level modulo 2^32 alone, so the 64-bit wrap-around changes no result.
- Concurrency: `SetAccess` is an unsynchronised read-modify-write in Go. The model is sequential.
- The field-by-field lemmas (`MaskFields`, `MaskWithin`, `AuthorizedByFields`, `GrantedFields`, `GrantedFrame`) are stated for resources 0..15 and levels 0..3. Outside that range, the model states only the facts the code gives there: empty masks beyond the sixteen fields, and resources that share a slot.
