/** Content-addressed object storage (bulk/memory.py). */
module ObjectStore {
  import opened Prelude
  import opened Repository

  /** The content digest. Nothing is known of it; what needs it to tell contents apart says so. */
  type Digester = Bytes -> string

  type Objects = map<string, Bytes>

  datatype StoreError = UnknownObject | HashMismatch | Unsupported

  function KindName(kind: ArtifactKind): string {
    match kind
    case PayloadArtifact => "payload"
    case ResultArtifact => "result"
  }

  const SCHEME := "memory://"

  function Address(kind: ArtifactKind, hash: string): string {
    SCHEME + (KindName(kind) + ("/" + hash))
  }

  function ReferenceTo(digest: Digester, data: Bytes, kind: ArtifactKind): ObjectRef {
    ObjectRef(Address(kind, digest(data)), digest(data), kind, |data|)
  }

  /** `setdefault`: the first object under an address stays. */
  function Stored(objects: Objects, digest: Digester, data: Bytes, kind: ArtifactKind): Objects {
    var address := Address(kind, digest(data));
    if address in objects then objects else objects[address := data]
  }

  function Fetch(objects: Objects, digest: Digester, reference: ObjectRef): Result<Bytes, StoreError> {
    if reference.reference !in objects then Err(UnknownObject)
    else
      var data := objects[reference.reference];
      if digest(data) != reference.hash then Err(HashMismatch) else Ok(data)
  }

  /** `split("/", 1)[0]`. */
  function FirstSegment(text: string): string {
    if text == [] || text[0] == '/' then [] else [text[0]] + FirstSegment(text[1..])
  }

  function KindNamed(name: string): Option<ArtifactKind> {
    if name == "payload" then Some(PayloadArtifact) else if name == "result" then Some(ResultArtifact) else None
  }

  function Resolve(objects: Objects, digest: Digester, reference: string): Result<ObjectRef, StoreError> {
    if reference !in objects then Err(UnknownObject)
    else if !(SCHEME <= reference) then Err(Unsupported)
    else
      var data, kind := objects[reference], KindNamed(FirstSegment(reference[|SCHEME|..]));
      if kind.None? then Err(Unsupported) else Ok(ObjectRef(reference, digest(data), kind.value, |data|))
  }

  // ----- What is stored can be read back -----

  datatype Deposit = Deposit(data: Bytes, kind: ArtifactKind)

  function StoreAll(digest: Digester, puts: seq<Deposit>): Objects {
    if puts == [] then map[]
    else Stored(StoreAll(digest, puts[..|puts| - 1]), digest, puts[|puts| - 1].data, puts[|puts| - 1].kind)
  }

  ghost predicate Injective(digest: Digester) {
    forall a: Bytes, b: Bytes :: digest(a) == digest(b) ==> a == b
  }

  lemma {:induction false} SegmentOf(name: string, rest: string)
    requires '/' !in name
    ensures FirstSegment(name + ("/" + rest)) == name
  {
    var text := name + ("/" + rest);
    if name == [] {
      assert text[0] == '/';
    } else {
      assert text[0] == name[0] && text[1..] == name[1..] + ("/" + rest);
      SegmentOf(name[1..], rest);
    }
  }

  lemma NameOf(kind: ArtifactKind)
    ensures '/' !in KindName(kind) && KindNamed(KindName(kind)) == Some(kind)
  {}

  /** An address tells its kind and its hash. */
  lemma AddressTells(kind: ArtifactKind, hash: string)
    ensures SCHEME <= Address(kind, hash) && KindNamed(FirstSegment(Address(kind, hash)[|SCHEME|..])) == Some(kind)
    ensures Address(kind, hash)[|SCHEME| + |KindName(kind)| + 1..] == hash
  {
    assert Address(kind, hash)[|SCHEME|..] == KindName(kind) + ("/" + hash);
    NameOf(kind);
    SegmentOf(KindName(kind), hash);
  }

  lemma AddressesDiffer(kind: ArtifactKind, hash: string, other: ArtifactKind, otherHash: string)
    requires Address(kind, hash) == Address(other, otherHash)
    ensures kind == other && hash == otherHash
  {
    AddressTells(kind, hash);
    AddressTells(other, otherHash);
  }

  /** Every object is stored under its own address. */
  ghost predicate Addressed(objects: Objects, digest: Digester) {
    forall address :: address in objects ==> exists kind :: address == Address(kind, digest(objects[address]))
  }

  lemma {:induction false} StoreAllAddressed(digest: Digester, puts: seq<Deposit>)
    ensures Addressed(StoreAll(digest, puts), digest)
  {
    if puts != [] { StoreAllAddressed(digest, puts[..|puts| - 1]); }
  }

  lemma {:induction false} StaysStored(digest: Digester, puts: seq<Deposit>, i: nat)
    requires i < |puts|
    ensures Address(puts[i].kind, digest(puts[i].data)) in StoreAll(digest, puts)
  {
    if i < |puts| - 1 { StaysStored(digest, puts[..|puts| - 1], i); }
  }

  /**
   * After any run of puts every reference ever returned resolves to itself and passes the hash check, and with a digest
   * that tells contents apart the object read back is the one that was put.
   */
  lemma PutsAreReadBack(digest: Digester, puts: seq<Deposit>, i: nat)
    requires i < |puts|
    ensures var objects, reference := StoreAll(digest, puts), ReferenceTo(digest, puts[i].data, puts[i].kind);
            && Fetch(objects, digest, reference).Ok?
            && (Injective(digest) ==> Fetch(objects, digest, reference) == Ok(puts[i].data)
                                      && Resolve(objects, digest, reference.reference) == Ok(reference))
  {
    StaysStored(digest, puts, i);
    StoreAllAddressed(digest, puts);
    var objects, address := StoreAll(digest, puts), Address(puts[i].kind, digest(puts[i].data));
    var kind :| address == Address(kind, digest(objects[address]));
    AddressesDiffer(kind, digest(objects[address]), puts[i].kind, digest(puts[i].data));
    AddressTells(puts[i].kind, digest(puts[i].data));
  }

  /** An object is returned if and only if one is stored under the reference and has its hash; the two failures are told apart. */
  lemma FetchIff(objects: Objects, digest: Digester, reference: ObjectRef)
    ensures var r := Fetch(objects, digest, reference);
            && (r.Ok? <==> reference.reference in objects && digest(objects[reference.reference]) == reference.hash)
            && (r.Ok? ==> r.value == objects[reference.reference])
            && (r == Err(UnknownObject) <==> reference.reference !in objects)
            && (r == Err(HashMismatch) <==>
                  reference.reference in objects && digest(objects[reference.reference]) != reference.hash)
  {}

  class ObjectResultStore {
    const digest: Digester
    var objects: Objects

    constructor (digest: Digester)
      ensures this.digest == digest && objects == map[]
    {
      this.digest, objects := digest, map[];
    }

    /** `put_payload` and `put_result`. */
    method PutObject(data: Bytes, kind: ArtifactKind) returns (r: ObjectRef)
      modifies this
      ensures objects == Stored(old(objects), digest, data, kind) && r == ReferenceTo(digest, data, kind)
    {
      var hash := digest(data);
      var reference := Address(kind, hash);
      if reference !in objects { objects := objects[reference := data]; }
      return ObjectRef(reference, hash, kind, |data|);
    }

    method Get(reference: ObjectRef) returns (r: Result<Bytes, StoreError>)
      ensures r == Fetch(objects, digest, reference)
    {
      if reference.reference !in objects { return Err(UnknownObject); }
      var data := objects[reference.reference];
      return if digest(data) != reference.hash then Err(HashMismatch) else Ok(data);
    }
  }
}
