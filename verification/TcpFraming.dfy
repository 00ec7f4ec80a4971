/** What the TCP receive side takes out of a buffer, said of encodings alone, and how it gives up. */
module TcpFraming {
  import opened Bytes
  import opened Adus
  import opened Streams
  import opened Tcp
  import opened TcpStream

  // ---------------------------------------------------------------- one extraction

  /** The bytes are a unit of at most 252 data bytes and `n` bytes in all. */
  ghost predicate IsUnit(f: seq<byte>, n: nat) {
    exists adu: Adu :: |adu.data| <= 252 && |Encode(adu, 0)| == n && f == Encode(adu, 0)
  }

  /** They are the beginning of one. */
  ghost predicate BeginsUnit(b: seq<byte>) {
    exists adu: Adu :: |adu.data| <= 252 && b < Encode(adu, 0)
  }

  function Zeros(n: nat): seq<byte> { seq(n, _ => 0) }

  /** A buffer whose header is well formed begins a unit of the announced length. */
  lemma HeaderBeginsUnit(b: seq<byte>)
    requires |b| >= MIN_TCP_FRAME && b[2] == 0 && b[3] == 0 && 2 <= LengthField(b) <= 254 && |b| < 6 + LengthField(b)
    ensures BeginsUnit(b)
  {
    var whole := b + Zeros(6 + LengthField(b) - |b|);
    SameHeader(b, Zeros(6 + LengthField(b) - |b|));
    assert whole[2] == 0 && whole[3] == 0;
    assert Decode(whole) == Ok(AduOf(whole));
    EncodeDecode(whole, 0);
    assert |AduOf(whole).data| <= 252 && b < Encode(AduOf(whole), 0);
  }

  lemma BeginningWaits(b: seq<byte>)
    requires BeginsUnit(b)
    ensures TryExtractFrame(b) == Insufficient
  {
    var adu: Adu :| |adu.data| <= 252 && b < Encode(adu, 0);
    PartDecidesNothing(adu, 0, |b|);
    assert Encode(adu, 0)[..|b|] == b;
  }

  lemma UnitIsTaken(b: seq<byte>, n: nat)
    requires n <= |b| && IsUnit(b[..n], n)
    ensures TryExtractFrame(b) == Frame(n)
  {
    var adu: Adu :| |adu.data| <= 252 && |Encode(adu, 0)| == n && b[..n] == Encode(adu, 0);
    EncodeParts(adu, 0);
    EncodingIsExtracted(adu, 0, b[n..]);
    assert b[..n] + b[n..] == b;
  }

  lemma TakenIsUnit(b: seq<byte>)
    requires TryExtractFrame(b).Frame?
    ensures TryExtractFrame(b).total <= |b| && IsUnit(b[..TryExtractFrame(b).total], TryExtractFrame(b).total)
  {
    ExtractedIsEncoding(b, 0);
    var f := b[..TryExtractFrame(b).total];
    assert |AduOf(f).data| <= 252 && |Encode(AduOf(f), 0)| == |f|;
  }

  /** EXTRACTION, exactly. A buffer gives a frame if and only if it begins with a unit of at most 252 data
      bytes, which is then that frame; it waits if and only if it has fewer than eight bytes or is the
      beginning of such a unit; and in every other case it is invalid. */
  lemma ExtractsIff(b: seq<byte>, n: nat)
    ensures TryExtractFrame(b) == Frame(n) <==> n <= |b| && IsUnit(b[..n], n)
    ensures TryExtractFrame(b) == Insufficient <==> |b| < 8 || BeginsUnit(b)
  {
    if n <= |b| && IsUnit(b[..n], n) {
      UnitIsTaken(b, n);
    }
    if TryExtractFrame(b).Frame? {
      TakenIsUnit(b);
    }
    if BeginsUnit(b) {
      BeginningWaits(b);
    }
    if TryExtractFrame(b) == Insufficient && |b| >= 8 {
      HeaderBeginsUnit(b);
    }
  }

  // ---------------------------------------------------------------- giving up

  /** GIVING UP. Known frames and then bytes that cannot begin one, in one chunk: the frames are emitted,
      there is one error, and everything after the frames is lost. */
  lemma {:induction false} GivesUp(extract: Extractor, frames: seq<seq<byte>>, bad: seq<byte>)
    requires Sound(extract) && AllRecognised(extract, frames) && extract(bad) == Invalid
    ensures Process(extract, Concat(frames) + bad) == Received(Emits(frames) + [Fail(InvalidData), Discard(bad)], [])
    decreases |frames|
  {
    if frames == [] {
      assert Concat(frames) + bad == bad;
      assert Emits(frames) + [Fail(InvalidData), Discard(bad)] == [Fail(InvalidData), Discard(bad)];
    } else {
      var more := Concat(frames[1..]) + bad;
      Regroup(frames[0], Concat(frames[1..]), bad);
      assert Recognised(extract, frames[0]);
      TakesFrame(extract, frames[0], more);
      GivesUp(extract, frames[1..], bad);
      Regroup([Emit(frames[0])], Emits(frames[1..]), [Fail(InvalidData), Discard(bad)]);
    }
  }

  /** And the next chunk is received as by a new connection. */
  lemma StartsAfresh(extract: Extractor, bad: seq<byte>, chunks: seq<seq<byte>>)
    requires Sound(extract) && extract(bad) == Invalid
    ensures Run(extract, [], [bad] + chunks) == After([Fail(InvalidData), Discard(bad)], Run(extract, [], chunks))
  {
    assert ([bad] + chunks)[1..] == chunks && [] + bad == bad;
  }
}
