/** The chunked writer and the buffered decrypting reader of minit/backups.py,
    and the passes over an archive that use them. Chunk sizes, short reads and
    the points where the tar reader stops are arbitrary. */
module BackupStreams {
  import opened Results
  import opened Bytes
  import opened Gcm
  import opened BackupContainer
  import opened Envelope
  import opened CanonicalJson
  import opened MemberPaths
  import opened Trees

  // ----- writing ------------------------------------------------------------

  /** _EncryptingWriter around an output file and a GCM encryptor. */
  class EncryptingWriter {
    const g: Cipher
    const key: bytes
    const nonce: bytes
    var output: bytes
    var encrypted: bytes
    ghost var plain: bytes

    ghost predicate Valid()
      reads this
    {
      && encrypted == Mask(g, key, nonce, 0, plain)
      && |encrypted| <= |output| && output[|output| - |encrypted|..] == encrypted
    }

    constructor (g: Cipher, key: bytes, nonce: bytes, written: bytes)
      ensures Valid() && this.g == g && this.key == key && this.nonce == nonce
      ensures plain == [] && encrypted == [] && output == written
    {
      this.g, this.key, this.nonce := g, key, nonce;
      output, encrypted, plain := written, [], [];
    }

    method Write(data: bytes) returns (count: nat)
      requires Valid()
      modifies this
      ensures Valid() && count == |data|
      ensures plain == old(plain) + data
      ensures output == old(output) + encrypted[|old(encrypted)|..] && old(encrypted) <= encrypted
    {
      var chunk := Mask(g, key, nonce, |encrypted|, data);
      MaskAppend(g, key, nonce, 0, plain, data);
      if chunk != [] { output := output + chunk; }
      encrypted, plain := encrypted + chunk, plain + data;
      count := |data|;
    }
  }

  /** _write_backup_stream: the archive arrives in chunks of any size, and the
      finished file is the container. The second result is the file count. */
  method WriteBackupStream(g: Cipher, codec: Codec, appKey: Key, appId: string, backupId: string, d: BackupDraw,
                           tree: Tree, listing: seq<Path>)
    returns (r: Result<bytes, BackupError>, fileCount: nat)
    requires forall p | p in listing :: p in tree
    ensures r == Container(g, appKey, appId, backupId, d, codec.pack(EntriesOf(tree, listing)))
    ensures r.Ok? ==> fileCount == CountRegular(EntriesOf(tree, listing))
  {
    hide KeyEnvelope, BackupHeader, Print;
    fileCount := 0;
    var header := PrintBytes(Obj(BackupHeader(g, appKey, appId, backupId, d)));
    if |header| > MAX_HEADER_BYTES { return Err(HeaderTooLarge), 0; }
    var writer := new EncryptingWriter(g, d.backupKey, d.nonce, Prefix(header));

    var entries: seq<Entry> := [];
    var i := 0;
    while i < |listing|
      invariant 0 <= i <= |listing|
      invariant entries == EntriesOf(tree, listing[..i])
      invariant fileCount == CountRegular(entries)
    {
      var before := entries;
      entries := entries + [EntryOf(tree, listing[i])];
      assert entries[..|entries| - 1] == before;
      if tree[listing[i]].File? { fileCount := fileCount + 1; }
      assert listing[..i + 1][..i] == listing[..i];
      i := i + 1;
    }
    assert listing[..i] == listing;

    WriteChunks(writer, codec.pack(entries));
    var tag := g.mac(d.backupKey, d.nonce, header, writer.encrypted);
    r := Ok(writer.output + tag);
    assert Prefix(header) + writer.encrypted + tag == Prefix(header) + (writer.encrypted + tag);
  }

  /** tarfile and gzip hand the archive over in chunks of any size. */
  method WriteChunks(writer: EncryptingWriter, archive: bytes)
    requires writer.Valid() && writer.plain == []
    modifies writer
    ensures writer.Valid() && writer.plain == archive
    ensures writer.output == old(writer.output) + writer.encrypted[|old(writer.encrypted)|..]
            && old(writer.encrypted) <= writer.encrypted
  {
    var rest := archive;
    while rest != []
      invariant writer.Valid() && writer.plain + rest == archive
      invariant old(writer.encrypted) <= writer.encrypted
      invariant writer.output == old(writer.output) + writer.encrypted[|old(writer.encrypted)|..]
      decreases |rest|
    {
      var n :| 1 <= n <= |rest|;
      var chunk := rest[..n];
      assert writer.plain + rest == (writer.plain + chunk) + rest[n..];
      var _ := writer.Write(chunk);
      rest := rest[n..];
    }
  }

  // ----- reading ------------------------------------------------------------

  /** An open file: read(n) returns at least one byte and at most n, unless the
      position is at the end. */
  class Source {
    const data: bytes
    var pos: nat

    constructor (data: bytes, pos: nat)
      ensures this.data == data && this.pos == pos
    {
      this.data, this.pos := data, pos;
    }

    method Read(n: nat) returns (chunk: bytes)
      requires n > 0
      modifies this
      ensures |chunk| <= n && (chunk == [] <==> old(pos) >= |data|)
      ensures pos == old(pos) + |chunk| && (chunk != [] ==> pos <= |data| && chunk == data[old(pos)..pos])
    {
      if pos >= |data| { return []; }
      var most := if |data| - pos < n then |data| - pos else n;
      var k :| 1 <= k <= most;
      chunk := data[pos..pos + k];
      pos := pos + k;
    }
  }

  const CHUNK: nat := 1024 * 1024

  /** Decrypting one more chunk continues the decryption of what was fed. */
  lemma DecryptsOn(g: Cipher, key: bytes, nonce: bytes, fed: bytes, chunk: bytes, delivered: bytes, buffer: bytes)
    requires delivered + buffer == Mask(g, key, nonce, 0, fed)
    ensures delivered + (buffer + Mask(g, key, nonce, |fed|, chunk)) == Mask(g, key, nonce, 0, fed + chunk)
  {
    MaskAppend(g, key, nonce, 0, fed, chunk);
    assert delivered + (buffer + Mask(g, key, nonce, |fed|, chunk))
           == delivered + buffer + Mask(g, key, nonce, |fed|, chunk);
  }

  /** _DecryptingReader over the ciphertext that starts at `start`. */
  class DecryptingReader {
    const source: Source
    const g: Cipher
    const key: bytes
    const nonce: bytes
    const aad: bytes
    const tag: bytes
    ghost const start: nat
    ghost const size: nat
    var remaining: nat
    var finalized: bool
    var buffer: bytes
    /** What the GCM decryptor has absorbed so far. */
    var fed: bytes
    ghost var delivered: bytes

    /** The ciphertext of the message, once the source holds all of it. */
    ghost function Ciphertext(): bytes
      requires start + size <= |source.data|
    {
      source.data[start..start + size]
    }

    /** The source is never read past the ciphertext, what was delivered and what
        waits in the buffer are the decryption of what was read, and no more than
        one chunk ever waits. */
    ghost predicate Valid()
      reads this, source
    {
      && remaining <= size && |fed| == size - remaining
      && source.pos == start + |fed| && (fed != [] ==> source.pos <= |source.data|)
      && (fed != [] ==> fed == source.data[start..source.pos])
      && delivered + buffer == Mask(g, key, nonce, 0, fed) && |buffer| <= CHUNK
      && (finalized ==> remaining == 0 && tag == g.mac(key, nonce, aad, fed))
    }

    /** Every plaintext byte is out and the tag has checked. */
    ghost predicate Finished()
      reads this
    {
      finalized && buffer == []
    }

    constructor (source: Source, g: Cipher, key: bytes, nonce: bytes, aad: bytes, tag: bytes, ciphertextBytes: nat)
      ensures Valid() && !finalized && delivered == [] && buffer == []
      ensures this.source == source && this.g == g && this.key == key && this.nonce == nonce
      ensures this.aad == aad && this.tag == tag
      ensures start == source.pos && size == ciphertextBytes && remaining == ciphertextBytes
    {
      this.source, this.g, this.key, this.nonce, this.aad, this.tag := source, g, key, nonce, aad, tag;
      start, size, remaining, finalized := source.pos, ciphertextBytes, ciphertextBytes, false;
      buffer, fed, delivered := [], [], [];
    }

    method Finish() returns (r: Result<(), BackupError>)
      requires Valid() && remaining == 0
      modifies this`finalized
      ensures Valid()
      ensures r.Ok? <==> finalized
      ensures r.Err? ==> r == Err(IntegrityFailed) && tag != g.mac(key, nonce, aad, fed)
    {
      if finalized { return Ok(()); }
      if tag != g.mac(key, nonce, aad, fed) { return Err(IntegrityFailed); }
      finalized := true;
      r := Ok(());
    }

    /** What a failed read says: a wrong tag, or a file that lost its end. */
    ghost predicate Explains(e: BackupError)
      reads this, source
    {
      || (e == IntegrityFailed && remaining == 0 && tag != g.mac(key, nonce, aad, fed))
      || (e == EndedEarly && |source.data| < start + size)
    }

    /** The loop of readinto: decrypts until there is something to deliver or
        the tag has checked. */
    method Refill() returns (r: Result<(), BackupError>)
      requires Valid()
      modifies this, source
      ensures Valid() && delivered == old(delivered)
      ensures r.Ok? ==> buffer != [] || finalized
      ensures old(buffer) != [] ==> buffer == old(buffer)
      ensures old(Finished()) ==> Finished()
      ensures r.Err? ==> Explains(r.error)
    {
      while buffer == [] && !finalized
        invariant Valid() && delivered == old(delivered)
        invariant old(buffer) != [] ==> buffer == old(buffer)
        invariant old(Finished()) ==> Finished()
        decreases !finalized, remaining
      {
        if remaining == 0 {
          var done := Finish();
          if done.Err? { return Err(done.error); }
          break;
        }
        var chunk := source.Read(if remaining < CHUNK then remaining else CHUNK);
        if chunk == [] { return Err(EndedEarly); }
        remaining := remaining - |chunk|;
        DecryptsOn(g, key, nonce, fed, chunk, delivered, buffer);
        buffer, fed := buffer + Mask(g, key, nonce, |fed|, chunk), fed + chunk;
      }
      r := Ok(());
    }

    /** target[:count] = data */
    static method Deliver(target: array<byte>, data: bytes)
      requires |data| <= target.Length
      modifies target
      ensures target[..|data|] == data
      ensures forall j | |data| <= j < target.Length :: target[j] == old(target[j])
    {
      var k := 0;
      while k < |data|
        invariant 0 <= k <= |data|
        invariant target[..k] == data[..k]
        invariant forall j | k <= j < target.Length :: target[j] == old(target[j])
      {
        target[k] := data[k];
        k := k + 1;
      }
    }

    /** readinto: fills the front of the target and says how much. Zero, for a
        target with room, means the whole plaintext is out and authenticated. */
    method ReadInto(target: array<byte>) returns (r: Result<nat, BackupError>)
      requires Valid()
      modifies this, source, target
      ensures Valid()
      ensures r.Ok? ==> r.value <= target.Length && delivered == old(delivered) + target[..r.value]
      ensures r.Ok? ==> r.value == target.Length || buffer == []
      ensures r.Ok? ==> forall j | r.value <= j < target.Length :: target[j] == old(target[j])
      ensures r == Ok(0) && target.Length > 0 ==> Finished()
      ensures old(Finished()) && r.Ok? ==> r.value == 0
      ensures r.Err? ==> delivered == old(delivered) && Explains(r.error)
    {
      var filled := Refill();
      if filled.Err? { return Err(filled.error); }
      if buffer == [] {
        assert target[..0] == [] && delivered + [] == delivered;
        return Ok(0);
      }
      var count := if target.Length < |buffer| then target.Length else |buffer|;
      Deliver(target, buffer[..count]);
      assert delivered + buffer == (delivered + buffer[..count]) + buffer[count..];
      delivered, buffer := delivered + buffer[..count], buffer[count..];
      r := Ok(count);
    }

    /** drain: reads to the end, so the tag is checked. */
    method Drain() returns (r: Result<(), BackupError>)
      requires Valid()
      modifies this, source
      ensures Valid()
      ensures r.Ok? ==> Finished() && old(delivered) <= delivered
      ensures r.Err? ==> Explains(r.error)
    {
      var scratch := new byte[CHUNK](_ => 0);
      var more := true;
      while more
        invariant Valid() && old(delivered) <= delivered
        invariant !more ==> Finished()
        decreases more, size - |delivered|
      {
        LengthsAgree();
        var n := ReadInto(scratch);
        if n.Err? { return Err(n.error); }
        more := n.value > 0;
        LengthsAgree();
      }
      r := Ok(());
    }

    lemma LengthsAgree()
      requires Valid()
      ensures |delivered| + |buffer| == |fed| <= size
    {}

    // ----- refinement of whole-message decryption ---------------------------

    /** The decryption of the whole message. */
    ghost function Whole(): Option<bytes>
      requires start + size <= |source.data|
    {
      Open(g, key, nonce, Ciphertext() + tag, aad)
    }

    /** At every moment, what was delivered is a prefix of the plaintext that
        decrypting the message at once would give, and the source stands at or
        before the tag. */
    lemma DeliveredIsPrefix()
      requires Valid() && start + size <= |source.data|
      ensures delivered <= Mask(g, key, nonce, 0, Ciphertext())
      ensures source.pos <= start + size
    {
      var c := Ciphertext();
      if fed == [] { assert |delivered + buffer| == 0; }
      assert fed == c[..|fed|];
      MaskAppend(g, key, nonce, 0, fed, c[|fed|..]);
      assert c == fed + c[|fed|..];
    }

    /** When reading is over, the message opens to exactly what was
        delivered. */
    lemma FinishedIsWhole()
      requires Valid() && Finished() && start + size <= |source.data| && |tag| == TAG_BYTES
      ensures Whole() == Some(delivered)
    {
      var c := Ciphertext();
      assert fed == c && delivered + [] == delivered;
      var data := c + tag;
      assert data[..|data| - TAG_BYTES] == c && data[|data| - TAG_BYTES..] == tag;
    }

    /** A read fails on a complete file only when the message does not open. */
    lemma FailureIsForgery(e: BackupError)
      requires Valid() && Explains(e) && start + size <= |source.data| && |tag| == TAG_BYTES
      ensures e == IntegrityFailed && Whole() == None
    {}
  }

  /** The reader _open_decrypted_reader returns. */
  method OpenDecryptedReader(g: Cipher, file: bytes, appId: string, appKey: bytes)
    returns (r: Result<DecryptingReader, BackupError>)
    ensures r.Err? <==> OpenContainer(g, file, appId, appKey).Err?
    ensures r.Err? ==> r.error == OpenContainer(g, file, appId, appKey).error
    ensures r.Ok? ==> fresh(r.value) && fresh(r.value.source) && ReadsContainer(r.value, g, file, appId, appKey)
    ensures r.Ok? ==> r.value.Valid() && r.value.delivered == []
  {
    hide UnlockHeader, ParseHeader, Print;
    var container := OpenContainer(g, file, appId, appKey);
    if container.Err? { return Err(container.error); }
    var o := container.value;
    var source := new Source(file, |file| - TAG_BYTES - |o.ciphertext|);
    var reader := new DecryptingReader(source, g, o.key, o.nonce, o.aad, o.tag, |o.ciphertext|);
    r := Ok(reader);
  }

  /** The reader stands on the ciphertext of this container. */
  ghost predicate ReadsContainer(reader: DecryptingReader, g: Cipher, file: bytes, appId: string, appKey: bytes) {
    && OpenContainer(g, file, appId, appKey).Ok?
    && reader.start + reader.size + TAG_BYTES == |file| && reader.source.data == file
    && ReadsOpened(reader, g, OpenContainer(g, file, appId, appKey).value)
  }

  ghost predicate ReadsOpened(reader: DecryptingReader, g: Cipher, o: Opened)
    requires reader.start + reader.size <= |reader.source.data|
  {
    && reader.g == g && reader.key == o.key && reader.nonce == o.nonce && reader.aad == o.aad && reader.tag == o.tag
    && reader.Ciphertext() == o.ciphertext
  }

  /** The tar reader over a buffered reader: reads of any size, up to the end of
      the archive or any point after it. */
  method ArchivePass(reader: DecryptingReader, codec: Codec) returns (r: Result<seq<Entry>, BackupError>)
    requires reader.Valid() && reader.delivered == []
    modifies reader, reader.source
    ensures reader.Valid()
    ensures r.Ok? ==> codec.unpack(reader.delivered) == Some(r.value)
    ensures r.Err? ==> || (r.error == BadArchive && reader.Finished() && codec.unpack(reader.delivered) == None)
                       || reader.Explains(r.error)
  {
    var got: bytes := [];
    var atEnd := false;
    while !atEnd
      invariant reader.Valid() && got == reader.delivered
      invariant atEnd ==> reader.Finished() || codec.unpack(got).Some?
      decreases !atEnd, reader.size - |reader.delivered|
    {
      reader.LengthsAgree();
      var n: nat :| n > 0;
      var target := new byte[n](_ => 0);
      var count := reader.ReadInto(target);
      if count.Err? { return Err(count.error); }
      got := got + target[..count.value];
      reader.LengthsAgree();
      var stop: bool := *;
      atEnd := count.value == 0 || (stop && codec.unpack(got).Some?);
    }
    match codec.unpack(got) {
      case None => r := Err(BadArchive);
      case Some(es) => r := Ok(es);
    }
  }

  /** A container that verification should accept, and its members. */
  ghost predicate Verifies(g: Cipher, codec: Codec, file: bytes, appId: string, appKey: bytes, es: seq<Entry>) {
    && OpenContainer(g, file, appId, appKey).Ok?
    && Plaintext(g, OpenContainer(g, file, appId, appKey).value).Some?
    && codec.unpack(Plaintext(g, OpenContainer(g, file, appId, appKey).value).value) == Some(es)
    && forall e | e in es :: !Refused(e)
  }

  /** What a pass over the archive and the drain after it amount to. */
  lemma PassedMeansVerifies(reader: DecryptingReader, g: Cipher, codec: Codec, file: bytes, appId: string,
                            appKey: bytes, es: seq<Entry>, passed: bytes)
    requires IsCodec(codec) && ReadsContainer(reader, g, file, appId, appKey)
    requires reader.Valid() && reader.Finished()
    requires codec.unpack(passed) == Some(es) && passed <= reader.delivered && forall e | e in es :: !Refused(e)
    ensures Verifies(g, codec, file, appId, appKey, es)
  {
    hide OpenContainer;
    reader.FinishedIsWhole();
    assert codec.unpack(reader.delivered) == codec.unpack(passed);
  }

  /** verify_backup on an existing file: it succeeds exactly on containers whose
      tag checks and whose members are all safe, and counts the regular files. */
  method VerifyBackup(g: Cipher, codec: Codec, file: bytes, appId: string, appKey: bytes)
    returns (r: Result<nat, BackupError>, ghost members: seq<Entry>)
    requires IsCodec(codec)
    ensures r.Ok? ==> Verifies(g, codec, file, appId, appKey, members) && r.value == CountRegular(members)
    ensures r.Err? ==> forall es :: !Verifies(g, codec, file, appId, appKey, es)
  {
    hide OpenContainer, Refused;
    members := [];
    var container := OpenDecryptedReader(g, file, appId, appKey);
    if container.Err? { return Err(container.error), []; }
    var reader := container.value;
    var pass := ArchivePass(reader, codec);
    if pass.Err? {
      ghost var e := pass.error;
      if reader.Explains(e) { reader.FailureIsForgery(e); } else { reader.FinishedIsWhole(); }
      return Err(pass.error), [];
    }
    ghost var passed := reader.delivered;
    reader.DeliveredIsPrefix();
    ghost var whole := Mask(g, reader.key, reader.nonce, 0, reader.Ciphertext());
    assert codec.unpack(whole) == codec.unpack(passed);
    var es, count, i := pass.value, 0, 0;
    while i < |es|
      modifies {}
      invariant 0 <= i <= |es| && count == CountRegular(es[..i])
      invariant forall j | 0 <= j < i :: !Refused(es[j])
    {
      if Refused(es[i]) {
        assert es[i] in es;
        WholeIsPlaintext(reader, g, file, appId, appKey);
        return Err(UnsafeMember), [];
      }
      CountStep(es, i);
      if es[i].kind.Regular? { count := count + 1; }
      i := i + 1;
    }
    assert es[..i] == es;
    var drained := reader.Drain();
    if drained.Err? {
      reader.FailureIsForgery(drained.error);
      return Err(drained.error), [];
    }
    PassedMeansVerifies(reader, g, codec, file, appId, appKey, es, passed);
    return Ok(count), es;
  }

  lemma CountStep(es: seq<Entry>, i: nat)
    requires i < |es|
    ensures CountRegular(es[..i + 1]) == CountRegular(es[..i]) + if es[i].kind.Regular? then 1 else 0
  {
    assert es[..i + 1][..i] == es[..i];
  }

  /** The plaintext of a container, when its tag is right, is the unmasked
      ciphertext. */
  lemma WholeIsPlaintext(reader: DecryptingReader, g: Cipher, file: bytes, appId: string, appKey: bytes)
    requires ReadsContainer(reader, g, file, appId, appKey)
    ensures var p := Plaintext(g, OpenContainer(g, file, appId, appKey).value);
            p.Some? ==> p.value == Mask(g, reader.key, reader.nonce, 0, reader.Ciphertext())
  {
    hide OpenContainer;
    var o := OpenContainer(g, file, appId, appKey).value;
    var data := o.ciphertext + o.tag;
    assert |data| - TAG_BYTES == |o.ciphertext| && data[..|o.ciphertext|] == o.ciphertext;
  }
}
