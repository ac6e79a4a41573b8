/**
  The content-addressed source store as one caller sees it: retention, lookup and retrieval,
  with every way in which an entry can fail to be the record its name promises.
*/
module RawStore {
  import opened Journal
  import opened Wrappers

  /** What is at a digest path: a regular file, or anything else (a link, a directory, a pipe). */
  datatype Entry = Regular(data: Bytes) | Irregular

  datatype StoreError = InvalidDigest | TooLarge | NotRegular | Oversized | Corrupt | Unknown | Disappeared

  const PREFIX := "sha256:"

  predicate IsHex(c: char) {
    '0' <= c <= '9' || 'a' <= c <= 'f'
  }

  predicate IsDigest(d: string) {
    && |d| == 71
    && d[..7] == PREFIX
    && forall k | 7 <= k < 71 :: IsHex(d[k])
  }

  /** What the digest pattern accepts: its end anchor also admits one trailing line feed. */
  predicate PassesPattern(d: string) {
    IsDigest(d) || (|d| == 72 && d[71] == '\n' && IsDigest(d[..71]))
  }

  /** A digest is the prefix and 64 lower-case hexadecimal digits; the pattern lets one line feed follow. */
  lemma PatternIff(d: string)
    ensures IsDigest(d) <==>
      |d| == 71 && d[..7] == "sha256:" && forall k | 7 <= k < 71 :: d[k] in "0123456789abcdef"
    ensures PassesPattern(d) <==> IsDigest(d) || (d != "" && d[|d| - 1] == '\n' && IsDigest(d[..|d| - 1]))
  {
    forall c: char
      ensures IsHex(c) <==> c in "0123456789abcdef"
    {
      HexIff(c);
    }
  }

  lemma HexIff(c: char)
    ensures IsHex(c) <==> c in "0123456789abcdef"
  {
    if '0' <= c <= '9' {
      assert "0123456789abcdef"[c as int - '0' as int] == c;
    } else if 'a' <= c <= 'f' {
      assert "0123456789abcdef"[c as int - 'a' as int + 10] == c;
    }
  }

  /** Opening an entry: absent, refused, or its bytes. */
  function ReadEntry(entries: map<string, Entry>, digest: string, maximum: nat): Result<Option<Bytes>, StoreError> {
    if digest !in entries then Ok(None)
    else
      match entries[digest]
      case Irregular => Err(NotRegular)
      case Regular(data) => if |data| > maximum then Err(Oversized) else Ok(Some(data))
  }

  /** A record that can be handed out: present, regular, small enough, and hashing to its name. */
  predicate Retained(entries: map<string, Entry>, digest: string, maximum: nat, hash: Bytes -> string) {
    && digest in entries
    && entries[digest].Regular?
    && |entries[digest].data| <= maximum
    && hash(entries[digest].data) == digest
  }

  /** What is wrong with an entry that is there: it is no file, too large, or not the record of its name. */
  ghost predicate Refused(entry: Entry, digest: string, maximum: nat, hash: Bytes -> string, error: StoreError) {
    match entry
    case Irregular => error == NotRegular
    case Regular(data) =>
      if |data| > maximum then error == Oversized else hash(data) != digest && error == Corrupt
  }

  class RawSourceStore {
    const hash: Bytes -> string
    const maximum: nat
    const journal: EffectJournal
    var entries: map<string, Entry>
    /** The entries a directory sync has made durable. */
    var durable: map<string, Entry>
    var temporaries: nat

    constructor (hash: Bytes -> string, maximum: nat, journal: EffectJournal)
      requires maximum > 0
      ensures this.hash == hash && this.maximum == maximum && this.journal == journal
      ensures entries == map[] && temporaries == 0
    {
      this.hash, this.maximum, this.journal := hash, maximum, journal;
      entries, durable, temporaries := map[], map[], 0;
    }

    /** The record of this digest can be handed out. */
    ghost predicate Holds(digest: string)
      reads this
    {
      Retained(entries, digest, maximum, hash)
    }

    ghost predicate OnRecord(bytes: Bytes)
      reads this
    {
      Holds(hash(bytes))
    }

    function Verify(digest: string, payload: Bytes): Result<string, StoreError> {
      if hash(payload) == digest then Ok(digest) else Err(Corrupt)
    }

    /**
      Retain a payload. `rival` is what another process puts at the destination, if anything,
      between the first look and the link. Whatever is found there is never replaced; no exit
      leaves a temporary name behind; only a publication syncs the directory. A retention goes
      into the journal when it has succeeded.
    */
    method Store(payload: Bytes, rival: Option<Entry>) returns (r: Result<string, StoreError>)
      modifies this, journal
      ensures temporaries == old(temporaries)
      ensures journal.events == old(journal.events) + if r.Ok? then [Retain(payload)] else []
      ensures r.Ok? ==> OnRecord(payload)
      ensures |payload| > maximum ==> r == Err(TooLarge) && entries == old(entries)
      ensures |payload| <= maximum ==>
        var d := hash(payload);
        var vacant := d !in old(entries) && rival.None?;
        && entries == (if vacant then old(entries)[d := Regular(payload)]
                       else if d !in old(entries) then old(entries)[d := rival.value]
                       else old(entries))
        && durable == (if vacant then entries else old(durable))
        && (r.Ok? <==> Retained(entries, d, maximum, hash))
        && (r.Ok? ==> r.value == d)
        && (r.Err? ==> !vacant && Refused(entries[d], d, maximum, hash, r.error))
      ensures forall e | e in old(entries) :: e in entries && entries[e] == old(entries)[e]
    {
      if |payload| > maximum {
        return Err(TooLarge);
      }
      var digest := hash(payload);
      var existing := ReadEntry(entries, digest, maximum);
      if existing.Err? {
        return Err(existing.error);
      }
      if existing.value.Some? {
        r := Verify(digest, existing.value.value);
      } else {
        temporaries := temporaries + 1;
        if rival.Some? {
          entries := entries[digest := rival.value];
        }
        var published := false;
        if digest in entries {
          r := RereadEntry(digest);
        } else {
          entries := entries[digest := Regular(payload)];
          published := true;
          r := Ok(digest);
        }
        temporaries := temporaries - 1;
        if published {
          durable := entries;
        }
      }
      if r.Ok? {
        journal.Append(Retain(payload));
      }
    }

    /** After a failed link: the entry that won must be the same record. */
    method RereadEntry(digest: string) returns (r: Result<string, StoreError>)
      ensures r.Ok? <==> Retained(entries, digest, maximum, hash)
      ensures r.Ok? ==> r.value == digest
      ensures r.Err? && digest in entries ==> Refused(entries[digest], digest, maximum, hash, r.error)
    {
      var existing := ReadEntry(entries, digest, maximum);
      if existing.Err? {
        return Err(existing.error);
      }
      if existing.value.None? {
        return Err(Disappeared);
      }
      r := Verify(digest, existing.value.value);
    }

    method Exists(digest: string) returns (r: Result<bool, StoreError>)
      ensures r == Err(InvalidDigest) <==> !PassesPattern(digest)
      ensures r.Ok? ==> r.value == (digest in entries)
      ensures r == Ok(false) <==> PassesPattern(digest) && digest !in entries
      ensures r.Ok? && r.value ==> entries[digest].Regular? && |entries[digest].data| <= maximum
      ensures PassesPattern(digest) && Retained(entries, digest, maximum, hash) ==> r == Ok(true)
      ensures r.Err? && PassesPattern(digest) ==>
        && digest in entries && Refused(entries[digest], digest, maximum, hash, r.error)
        && r.error in {NotRegular, Oversized}
    {
      if !PassesPattern(digest) {
        return Err(InvalidDigest);
      }
      var opening := ReadEntry(entries, digest, maximum);
      if opening.Err? {
        return Err(opening.error);
      }
      return Ok(opening.value.Some?);
    }

    method Retrieve(digest: string) returns (r: Result<Bytes, StoreError>)
      ensures r.Ok? <==> PassesPattern(digest) && Retained(entries, digest, maximum, hash)
      ensures r.Ok? ==> entries[digest] == Regular(r.value) && hash(r.value) == digest
      ensures r == Err(Unknown) <==> PassesPattern(digest) && digest !in entries
      ensures r == Err(InvalidDigest) <==> !PassesPattern(digest)
      ensures r.Err? && PassesPattern(digest) && digest in entries ==>
        Refused(entries[digest], digest, maximum, hash, r.error)
    {
      if !PassesPattern(digest) {
        return Err(InvalidDigest);
      }
      var reading := ReadEntry(entries, digest, maximum);
      if reading.Err? {
        return Err(reading.error);
      }
      if reading.value.None? {
        return Err(Unknown);
      }
      var verified := Verify(digest, reading.value.value);
      if verified.Err? {
        return Err(verified.error);
      }
      return Ok(reading.value.value);
    }
  }
}
