/** The in-memory session store of the forms example: a table from session
    identifier to session, filled by `new_session` and consulted by
    `load_session`, which evicts a session asked for with the wrong
    confidentiality. Randomness is a parameter: `random` stands for the 32
    bytes `urandom(32)` returns. */
module Sessions {
  import opened Results
  import opened Ascii
  import opened Binascii

  type Identifier = Bytes

  /** `MemorySession`; `authenticatedBy` is whatever mechanism the caller passes. */
  datatype MemorySession<A> = MemorySession(identifier: Identifier, isConfidential: bool, authenticatedBy: A)

  datatype SessionError = NoSuchSession

  /** Every stored session is filed under its own identifier. */
  ghost predicate FiledUnderOwnIdentifier<A>(storage: map<Identifier, MemorySession<A>>) {
    forall id :: id in storage ==> storage[id].identifier == id
  }

  /** `load_session` as a function of the table: the table afterwards and
      the outcome. It succeeds exactly when the identifier is present with
      the requested confidentiality, evicts exactly that identifier when it
      is present with the other confidentiality, and otherwise changes
      nothing. */
  function Load<A>(storage: map<Identifier, MemorySession<A>>, identifier: Identifier, isConfidential: bool)
    : (r: (map<Identifier, MemorySession<A>>, Result<MemorySession<A>, SessionError>))
    ensures r.1.Ok? <==> identifier in storage && storage[identifier].isConfidential == isConfidential
    ensures r.1.Ok? ==> r.1.value == storage[identifier] && r.0 == storage
    ensures r.1.Err? ==> r.1.error == NoSuchSession && identifier !in r.0
    ensures r.0.Keys == if identifier in storage && storage[identifier].isConfidential != isConfidential
                        then storage.Keys - {identifier} else storage.Keys
    ensures forall id :: id in r.0 ==> r.0[id] == storage[id]
  {
    if identifier in storage then
      var result := storage[identifier];
      if isConfidential != result.isConfidential then
        (storage - {identifier}, Err(NoSuchSession))
      else
        (storage, Ok(result))
    else
      (storage, Err(NoSuchSession))
  }

  /** Once a load has failed for an identifier, every later load of it
      fails, whatever confidentiality is asked for. */
  lemma FailedLoadIsFinal<A>(storage: map<Identifier, MemorySession<A>>, identifier: Identifier, first: bool, later: bool)
    requires Load(storage, identifier, first).1.Err?
    ensures Load(Load(storage, identifier, first).0, identifier, later) ==
            (Load(storage, identifier, first).0, Err(NoSuchSession))
  {
  }

  /** A load that succeeds leaves the table as it was, so it can be repeated. */
  lemma SuccessfulLoadRepeats<A>(storage: map<Identifier, MemorySession<A>>, identifier: Identifier, isConfidential: bool)
    requires Load(storage, identifier, isConfidential).1.Ok?
    ensures Load(Load(storage, identifier, isConfidential).0, identifier, isConfidential) ==
            Load(storage, identifier, isConfidential)
  {
  }

  class MemorySessionStore<A> {
    var storage: map<Identifier, MemorySession<A>>

    ghost predicate Valid()
      reads this
    {
      FiledUnderOwnIdentifier(storage)
    }

    constructor ()
      ensures Valid()
      ensures storage == map[]
    {
      storage := map[];
    }

    /** `new_session`: files a new session under the hex encoding of the
        random bytes and returns it. A session already filed under that
        identifier is replaced; every other entry is untouched. */
    method NewSession(isConfidential: bool, authenticatedBy: A, random: Bytes) returns (session: MemorySession<A>)
      requires Valid()
      requires |random| == 32
      modifies this
      ensures Valid()
      ensures session == MemorySession(Hexlify(random), isConfidential, authenticatedBy)
      ensures |session.identifier| == 64 && IsHex(session.identifier)
      ensures storage == old(storage)[session.identifier := session]
    {
      var identifier := Hexlify(random);
      session := MemorySession(identifier, isConfidential, authenticatedBy);
      storage := storage[identifier := session];
    }

    /** `load_session`: the stored session when its confidentiality matches;
        otherwise NoSuchSession, after evicting a session stored with the
        other confidentiality. The mechanism argument is not consulted. */
    method LoadSession(identifier: Identifier, isConfidential: bool, authenticatedBy: A)
      returns (r: Result<MemorySession<A>, SessionError>)
      requires Valid()
      modifies this
      ensures Valid()
      ensures (storage, r) == Load(old(storage), identifier, isConfidential)
      ensures identifier !in old(storage) ==> r == Err(NoSuchSession) && storage == old(storage)
      ensures identifier in old(storage) && old(storage)[identifier].isConfidential == isConfidential ==>
                r == Ok(old(storage)[identifier]) && storage == old(storage)
      ensures identifier in old(storage) && old(storage)[identifier].isConfidential != isConfidential ==>
                r == Err(NoSuchSession) && storage == old(storage) - {identifier}
      ensures r.Ok? ==> r.value.identifier == identifier && r.value.isConfidential == isConfidential
    {
      if identifier in storage {
        var result := storage[identifier];
        if isConfidential != result.isConfidential {
          storage := storage - {identifier};
          return Err(NoSuchSession);
        }
        return Ok(result);
      } else {
        return Err(NoSuchSession);
      }
    }
  }

  /** A new session is found again by its identifier with its own
      confidentiality, and evicted when asked for with the other one. */
  method NewThenLoad<A>(isConfidential: bool, authenticatedBy: A, random: Bytes)
    returns (created: MemorySession<A>, matching: Result<MemorySession<A>, SessionError>,
             mismatched: Result<MemorySession<A>, SessionError>, afterEviction: Result<MemorySession<A>, SessionError>)
    requires |random| == 32
    ensures matching == Ok(created)
    ensures mismatched == Err(NoSuchSession)
    ensures afterEviction == Err(NoSuchSession)
  {
    var store := new MemorySessionStore<A>();
    created := store.NewSession(isConfidential, authenticatedBy, random);
    matching := store.LoadSession(created.identifier, isConfidential, authenticatedBy);
    mismatched := store.LoadSession(created.identifier, !isConfidential, authenticatedBy);
    afterEviction := store.LoadSession(created.identifier, isConfidential, authenticatedBy);
  }
}
