/** Random key generation of the auth crate (collie-auth/src/service/key.rs:25-36
    and its copy collie-auth/src/key.rs:25-36), and the two `create` functions
    that store a freshly generated pair. */
module KeyGen {
  /** The 72 characters a key is drawn from. */
  const Chars: string := "abcdefghijklmnopqrstuvwxyzABCDEFGHIJKLMNOPQRSTUVWXYZ0123456789!@#$%^&*_-"

  /** The number of characters in a key. */
  const KeyLength: nat := 64

  lemma CharsSize()
    ensures |Chars| == 72
  {
  }

  /** The thread-local generator behind `thread_rng()`. `source` is the stream
      of raw draws, `draws` how many have been taken. */
  class ThreadRng {
    var draws: nat
    const source: nat -> nat

    constructor (source: nat -> nat)
      ensures this.source == source && draws == 0
    {
      this.source := source;
      draws := 0;
    }

    /** `gen_range(0..hi)`: the next draw, reduced into `[0, hi)`. */
    method GenRange(hi: nat) returns (i: nat)
      requires hi > 0
      modifies this`draws
      ensures i < hi && i == source(old(draws)) % hi
      ensures draws == old(draws) + 1
    {
      i := source(draws) % hi;
      draws := draws + 1;
    }
  }

  /** The key the draws `start .. start + n` of `source` produce. */
  function KeyFrom(source: nat -> nat, start: nat, n: nat): (key: string)
    ensures |key| == n
    ensures forall c :: c in key ==> c in Chars
  {
    seq(n, i requires 0 <= i < n => Chars[source(start + i) % |Chars|])
  }

  /** Keys grow one draw at a time: one more draw appends the character at the
      drawn index, and the earlier characters stay as they were. */
  lemma KeyFromSplit(source: nat -> nat, start: nat, n: nat)
    ensures KeyFrom(source, start, n + 1) == KeyFrom(source, start, n) + [Chars[source(start + n) % |Chars|]]
  {
    assert forall i :: 0 <= i < n ==> KeyFrom(source, start, n + 1)[i] == KeyFrom(source, start, n)[i];
  }

  /** `generate`: 64 draws, each picking a character of `Chars`. */
  method Generate(rng: ThreadRng) returns (key: string)
    modifies rng`draws
    ensures |key| == KeyLength && forall c :: c in key ==> c in Chars
    ensures key == KeyFrom(rng.source, old(rng.draws), KeyLength)
    ensures rng.draws == old(rng.draws) + KeyLength
  {
    var start := rng.draws;
    key := [];
    var n := 0;
    while n < KeyLength
      invariant 0 <= n <= KeyLength
      invariant rng.draws == start + n
      invariant key == KeyFrom(rng.source, start, n)
    {
      var idx := rng.GenRange(|Chars|);
      KeyFromSplit(rng.source, start, n);
      key := key + [Chars[idx]];
      n := n + 1;
    }
  }
}

/** collie-auth/src/service/key.rs:8-23. */
module KeyService {
  import opened Common
  import opened KeyStore
  import opened KeyGen
  import KeyRepository

  /** `create`: generate an access key and a secret, store them without expiry,
      and return the pair; the result of the insert is ignored. */
  method Create(table: KeyTable, rng: ThreadRng, description: Option<string>)
    returns (r: Result<(string, string), AuthError>)
    requires table.Valid()
    modifies table, rng`draws
    ensures table.Valid()
    ensures var access := KeyFrom(rng.source, old(rng.draws), KeyLength);
            var secret := KeyFrom(rng.source, old(rng.draws) + KeyLength, KeyLength);
            && r == Ok((access, secret))
            && table.keys == InsertKey(old(table.keys), old(table.nextId), KeyToCreate(access, secret, description, None)).keys
    ensures rng.draws == old(rng.draws) + 2 * KeyLength
  {
    var access := Generate(rng);
    var secret := Generate(rng);
    var _ := KeyRepository.Create(table, KeyToCreate(access, secret, description, None));
    r := Ok((access, secret));
  }
}

/** The older collie-auth/src/key.rs. */
module AuthKey {
  import opened Common
  import opened KeyStore
  import opened KeyGen
  import KeyModel

  /** `generate_key`: the same 64 draws as `generate`. */
  method GenerateKey(rng: ThreadRng) returns (key: string)
    modifies rng`draws
    ensures |key| == KeyLength && forall c :: c in key ==> c in Chars
    ensures key == KeyFrom(rng.source, old(rng.draws), KeyLength)
    ensures rng.draws == old(rng.draws) + KeyLength
  {
    key := Generate(rng);
  }

  /** `create`: as the service's, but only the access key is returned. */
  method Create(table: KeyTable, rng: ThreadRng, description: Option<string>)
    returns (r: Result<string, AuthError>)
    requires table.Valid()
    modifies table, rng`draws
    ensures table.Valid()
    ensures var access := KeyFrom(rng.source, old(rng.draws), KeyLength);
            var secret := KeyFrom(rng.source, old(rng.draws) + KeyLength, KeyLength);
            && r == Ok(access)
            && table.keys == InsertKey(old(table.keys), old(table.nextId), KeyToCreate(access, secret, description, None)).keys
    ensures rng.draws == old(rng.draws) + 2 * KeyLength
  {
    var access := GenerateKey(rng);
    var secret := GenerateKey(rng);
    var _ := KeyModel.Create(table, KeyToCreate(access, secret, description, None));
    r := Ok(access);
  }
}
