/**
  * Both ends of a connection: a writer that generates packets one after the other, and a parser
  * that is given the bytes in whatever chunks they arrive.
  */
module PacketExchange {
  import opened Basics
  import opened PacketCodec
  import opened PacketStream
  import opened PacketText
  import opened PacketWriter
  import PacketParser

  /** Packets the writers take and the parser gives back. */
  ghost predicate Exchangeable(ps: seq<Packet<Text>>) { SendableText(ps) && forall p <- ps :: InRange(p) }

  lemma GenerateTail(p: Packet<Text>, tail: Bytes)
    requires Writable(Raw(p))
    ensures TextGenerate(p, tail) == TextGenerate(p, []) + tail
  {
    var h, length, body := [HeaderByte(p.header)], VarBytes(TextLength(p)), BodyBytes(Raw(p), []);
    BodyTail(Raw(p), tail);
    Associative(length, body, tail);
    Associative(h, length + body, tail);
  }

  /** One packet after the other: what is written is the stream of the whole list. */
  method GenerateAll(stream: Stream, ps: seq<Packet<Text>>)
    requires Exchangeable(ps)
    modifies stream
    ensures stream.written == old(stream.written) + TextWire(ps)
  {
    ghost var goal := stream.written + TextWire(ps);
    assert ps[0..] == ps;
    for i := 0 to |ps|
      invariant SendableText(ps[i..]) && stream.written + TextWire(ps[i..]) == goal
    {
      assert ps[i] in ps && ps[i..][1..] == ps[i + 1..];
      ghost var before, rest := stream.written, TextWire(ps[i + 1..]);
      AcceptsWritable(ps[i]);
      var ok := stream.Generate(ps[i]);
      GenerateTail(ps[i], rest);
      Associative(before, TextGenerate(ps[i], []), rest);
    }
    assert stream.written + [] == stream.written;
  }

  /** `parse` on every chunk, by a new parser: the packets come out, and nothing is left. */
  method ParseAll(ghost ps: seq<Packet<Text>>, chunks: seq<Bytes>) returns (parser: PacketParser.Parser)
    requires SendableText(ps) && Flatten(chunks) == TextWire(ps)
    ensures Received(parser.emitted) == ps && parser.error.None? && parser.list.Contents() == []
  {
    parser := new PacketParser.Parser();
    ghost var rest := Raws(ps);
    RawWire(ps);
    assert chunks[0..] == chunks && [] + Flatten(chunks) == Flatten(chunks) && [] + Frames(rest) == Frames(rest);
    for i := 0 to |chunks|
      invariant parser.Valid() && fresh(parser) && fresh(parser.list) && Stuck(parser.View())
      invariant Awaits(parser.View(), rest, Flatten(chunks[i..])) && parser.emitted + Frames(rest) == Frames(Raws(ps))
    {
      assert chunks[i..][1..] == chunks[i + 1..];
      rest := FeedAwaits(parser.View(), rest, chunks[i], Flatten(chunks[i + 1..]));
      var left := parser.Parse(chunks[i]);
    }
    NothingLeft(parser.View(), rest);
    RawReceived(ps);
    assert parser.emitted + [] == parser.emitted;
  }

  /** The chunks of the given sizes, and what is left as the last one. */
  function Cut(bytes: Bytes, sizes: seq<nat>): (chunks: seq<Bytes>)
    ensures Flatten(chunks) == bytes
  {
    if |sizes| == 0 || sizes[0] > |bytes| then
      assert Flatten([bytes]) == bytes + [];
      [bytes]
    else
      var chunks := [bytes[..sizes[0]]] + Cut(bytes[sizes[0]..], sizes[1..]);
      assert chunks[1..] == Cut(bytes[sizes[0]..], sizes[1..]);
      chunks
  }

  /** Whatever is sent is received: generated by one end, cut anywhere, parsed by the other. */
  method Exchange(ps: seq<Packet<Text>>, sizes: seq<nat>) returns (received: seq<Packet<Text>>)
    requires Exchangeable(ps)
    ensures received == ps
  {
    var stream := new Stream();
    GenerateAll(stream, ps);
    assert [] + TextWire(ps) == TextWire(ps);
    var parser := ParseAll(ps, Cut(stream.written, sizes));
    received := Received(parser.emitted);
  }
}
