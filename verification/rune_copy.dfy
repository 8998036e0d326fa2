/** RuneCopy (pkg/docker/proxy/rune_copy.go) over a model of the bufio.Scanner that drives the
    split function: a buffer that is refilled from a reader in arbitrary pieces. */
module RuneCopy {
  import opened Options
  import opened Utf8
  import opened ScanRunes

  const START_BUF_SIZE := 4096
  const MAX_EMPTY_READS := 100

  /** Why a scanner stops reading: the end of the stream, an error of the reader, or too many
      reads in a row that gave nothing. */
  datatype Stop = EOF | Broken | NoProgress

  function Flatten(chunks: seq<seq<byte>>): seq<byte> {
    if chunks == [] then [] else chunks[0] + Flatten(chunks[1..])
  }

  /** Length of the run of empty pieces at the front. */
  function EmptyRun(chunks: seq<seq<byte>>): nat {
    if chunks == [] || chunks[0] != [] then 0 else 1 + EmptyRun(chunks[1..])
  }

  /** A scanner that begins to read here gives up before it has seen the end: somewhere more than
      a hundred pieces in a row are empty. */
  predicate Stalls(chunks: seq<seq<byte>>) {
    EmptyRun(chunks) > MAX_EMPTY_READS || (chunks != [] && Stalls(chunks[1..]))
  }

  /** The bytes that it gets to see. */
  function Coming(chunks: seq<seq<byte>>, last: seq<byte>): seq<byte> {
    if EmptyRun(chunks) > MAX_EMPTY_READS then []
    else if chunks == [] then last
    else chunks[0] + Coming(chunks[1..], last)
  }

  /** Without a stall it sees everything, and otherwise the beginning. */
  lemma {:induction false} ComingIsPrefix(chunks: seq<seq<byte>>, last: seq<byte>)
    ensures Coming(chunks, last) <= Flatten(chunks) + last
    ensures !Stalls(chunks) ==> Coming(chunks, last) == Flatten(chunks) + last
  {
    if chunks != [] && EmptyRun(chunks) <= MAX_EMPTY_READS {
      ComingIsPrefix(chunks[1..], last);
      Append(chunks[0], Flatten(chunks[1..]), last);
    }
  }

  lemma {:induction false} StallsIff(chunks: seq<seq<byte>>)
    ensures Stalls(chunks) <==> exists i :: 0 <= i <= |chunks| && EmptyRun(chunks[i..]) > MAX_EMPTY_READS
  {
    assert chunks[0..] == chunks;
    if chunks != [] {
      StallsIff(chunks[1..]);
      if Stalls(chunks[1..]) {
        var i :| 0 <= i <= |chunks[1..]| && EmptyRun(chunks[1..][i..]) > MAX_EMPTY_READS;
        assert chunks[1..][i..] == chunks[i + 1..];
      }
      if i :| 0 < i <= |chunks| && EmptyRun(chunks[i..]) > MAX_EMPTY_READS {
        assert chunks[1..][i - 1..] == chunks[i..];
      }
    }
  }

  /** Taking the front of the next piece. */
  lemma CutPiece(chunks: seq<seq<byte>>, last: seq<byte>, k: nat)
    requires chunks != [] && k < |chunks[0]|
    ensures var rest := [chunks[0][k..]] + chunks[1..];
      && EmptyRun(chunks) == EmptyRun(rest) == 0
      && chunks[0][..k] + Coming(rest, last) == Coming(chunks, last) && Stalls(rest) == Stalls(chunks)
      && chunks[0][..k] + (Flatten(rest) + last) == Flatten(chunks) + last
  {
    var rest, piece := [chunks[0][k..]] + chunks[1..], chunks[0];
    assert rest[1..] == chunks[1..] && rest[0] == piece[k..] != [];
    Glue(piece, k, Coming(chunks[1..], last));
    Glue(piece, k, Flatten(chunks[1..]) + last);
    Append(rest[0], Flatten(chunks[1..]), last);
    Append(piece, Flatten(chunks[1..]), last);
  }

  lemma Glue(piece: seq<byte>, k: nat, rest: seq<byte>)
    requires k <= |piece|
    ensures piece[..k] + (piece[k..] + rest) == piece + rest
  {
  }

  lemma TakePiece(chunks: seq<seq<byte>>, last: seq<byte>)
    requires chunks != []
    ensures chunks[0] == [] ==> EmptyRun(chunks) == 1 + EmptyRun(chunks[1..])
    ensures chunks[0] != [] ==> EmptyRun(chunks) == 0
    ensures EmptyRun(chunks) <= MAX_EMPTY_READS ==>
      chunks[0] + Coming(chunks[1..], last) == Coming(chunks, last) && Stalls(chunks[1..]) == Stalls(chunks)
    ensures chunks[0] + (Flatten(chunks[1..]) + last) == Flatten(chunks) + last
  {
    Append(chunks[0], Flatten(chunks[1..]), last);
  }

  /** Any io.Reader: it delivers its data in the pieces `chunks`, some of them perhaps empty, and
      then `last`, which may be empty too, together with io.EOF or another error. A piece that
      does not fit is cut. */
  class Reader {
    var chunks: seq<seq<byte>>
    var last: seq<byte>
    const broken: bool
    ghost const withData: bool
    ghost const tail: nat
    ghost var done: bool

    constructor (chunks: seq<seq<byte>>, last: seq<byte>, broken: bool)
      ensures this.chunks == chunks && this.last == last && this.broken == broken
      ensures Valid() && !done && withData == (last != []) && tail == |last|
    {
      this.chunks, this.last, this.broken := chunks, last, broken;
      this.withData, this.tail, this.done := last != [], |last|, false;
    }

    /** `withData`: the error comes together with data, of at most `tail` bytes. */
    ghost predicate Valid()
      reads this
    {
      if done then chunks == [] && last == [] else withData == (last != []) && |last| <= tail
    }

    /** The data still to come. */
    ghost function Left(): seq<byte>
      reads this
    {
      Flatten(chunks) + last
    }

    /** What a scanner will see of it, and whether it will give up then. */
    ghost function Due(): seq<byte>
      reads this
    {
      Coming(chunks, last)
    }

    ghost predicate Stuck()
      reads this
    {
      Stalls(chunks)
    }

    ghost function Empties(): nat
      reads this
    {
      EmptyRun(chunks)
    }

    method Read(space: nat) returns (p: seq<byte>, stopped: bool)
      requires Valid() && !done && space > 0
      modifies this
      ensures Valid() && |p| <= space && p + Left() == old(Left())
      ensures done == stopped
      ensures stopped ==> Left() == [] && withData == (p != []) && |p| <= tail
      ensures old(Empties()) == if p == [] && !stopped then 1 + Empties() else 0
      ensures old(Empties()) <= MAX_EMPTY_READS ==> p + Due() == old(Due()) && Stuck() == old(Stuck())
    {
      stopped := false;
      if chunks != [] {
        p := ReadPiece(space);
      } else if |last| <= space {
        p, last := last, [];
        stopped, done := true, true;
      } else {
        p, last := last[..space], last[space..];
      }
    }

    method ReadPiece(space: nat) returns (p: seq<byte>)
      requires Valid() && chunks != [] && space > 0
      modifies this`chunks
      ensures Valid() && |p| <= space && p + Left() == old(Left())
      ensures old(Empties()) == if p == [] then 1 + Empties() else 0
      ensures old(Empties()) <= MAX_EMPTY_READS ==> p + Due() == old(Due()) && Stuck() == old(Stuck())
    {
      var next := chunks[0];
      if |next| <= space {
        TakePiece(chunks, last);
        p, chunks := next, chunks[1..];
      } else {
        CutPiece(chunks, last, space);
        p, chunks := next[..space], [next[space..]] + chunks[1..];
      }
    }
  }

  // ---------------------------------------------------------------- what a split function promises

  /** What a scanner relies on: `decode` is the text of a whole input, `held` what a split that may
      wait for more input leaves of it. Both are parameters so that the scanner's proofs do not
      depend on what a rune is. */
  datatype Meaning = Meaning(decode: seq<byte> -> seq<byte>, held: seq<byte> -> seq<byte>)

  ghost predicate SplitOk(split: Splitter, m: Meaning, data: seq<byte>) {
    var (a, t) := split(data, false);
    var (b, u) := split(data, true);
    && (a == 0 <==> t == []) && (b == 0 <==> u == []) && a <= |data|
    && b == |data| && u == m.decode(data)
    && data[a..] == m.held(data) && |data| - a <= 3
    && Streams(m.decode, data, data[a..], t)
  }

  ghost predicate Means(split: Splitter, m: Meaning) {
    && (forall data {:trigger SplitOk(split, m, data)} :: SplitOk(split, m, data))
    && (forall data, rest {:trigger m.held(data + rest)} :: m.held(data + rest) == m.held(m.held(data) + rest))
  }

  /** `given` is all that can be said before the last `tail` bytes, or fewer, are known. */
  ghost predicate Settled(m: Meaning, seen: seq<byte>, given: seq<byte>, tail: nat) {
    exists k :: 0 <= k <= |seen| && |seen| - k <= tail && SettledAt(m, seen[..k], given)
  }

  ghost predicate SettledAt(m: Meaning, seen: seq<byte>, given: seq<byte>) {
    m.decode(seen) == given + m.decode(m.held(seen))
  }

  /** Of the bytes `seen`, all but `buffered` have been turned into the text `given`, and
      whatever may follow will not change that. */
  ghost predicate Kept(m: Meaning, seen: seq<byte>, buffered: seq<byte>, given: seq<byte>) {
    m.held(buffered) == m.held(seen) && Streams(m.decode, seen, buffered, given)
  }

  lemma KeptMore(split: Splitter, m: Meaning, seen: seq<byte>, held: seq<byte>, given: seq<byte>, p: seq<byte>)
    requires Means(split, m) && Kept(m, seen, held, given) && held == m.held(held)
    ensures Kept(m, seen + p, held + p, given)
    ensures m.decode(seen + p) == given + m.decode(held + p)
    ensures p == [] ==> m.held(seen + p) == held
    ensures forall tail :: |p| <= tail ==> Settled(m, seen + p, given, tail)
  {
    StreamsNow(m.decode, seen, held, given);
    assert (seen + p)[..|seen|] == seen;
    assert SettledAt(m, (seen + p)[..|seen|], given);
    assert m.held(seen + p) == m.held(m.held(seen) + p);
    assert m.held(held + p) == m.held(m.held(held) + p);
    StreamsMore(m.decode, seen, held, given, p);
    StreamsNow(m.decode, seen + p, held + p, given);
    if p == [] { assert seen + p == seen; }
  }

  lemma KeptSplit(split: Splitter, m: Meaning, seen: seq<byte>, buffered: seq<byte>, given: seq<byte>)
    requires Means(split, m) && Kept(m, seen, buffered, given)
    ensures var (a, t) := split(buffered, false);
      && a <= |buffered| && buffered[a..] == m.held(buffered) == m.held(buffered[a..]) && |buffered| - a <= 3
      && (a == 0 <==> t == []) && Kept(m, seen, buffered[a..], given + t)
  {
    assert SplitOk(split, m, buffered);
    var (a, t) := split(buffered, false);
    assert buffered + [] == buffered && m.held(buffered) + [] == m.held(buffered);
    assert m.held(buffered + []) == m.held(m.held(buffered) + []);
    StreamsJoin(m.decode, seen, buffered, buffered[a..], given, t);
  }

  // ---------------------------------------------------------------- the scanner

  /** bufio.Scanner. */
  class Scanner {
    var buf: array<byte>
    var start: nat
    var end: nat
    var err: Option<Stop>
    var token: seq<byte>
    const src: Reader
    const split: Splitter
    ghost const meaning: Meaning
    // Everything read, and everything handed out as tokens.
    ghost var seen: seq<byte>
    ghost var given: seq<byte>

    constructor (src: Reader, split: Splitter, ghost meaning: Meaning)
      requires src.Valid() && !src.done
      requires Means(split, meaning) && Kept(meaning, [], [], [])
      ensures this.src == src && this.split == split && this.meaning == meaning
      ensures Valid() && fresh(buf) && err == None
      ensures seen == [] && given == [] && Buffered() == []
    {
      this.src, this.split, this.meaning := src, split, meaning;
      buf := new byte[0];
      start, end, err, token, seen, given := 0, 0, None, [], [], [];
      new;
      assert buf[start..end] == [];
    }

    /** The buffer never grows beyond its first size. */
    ghost predicate Shape()
      reads this, src
    {
      && start <= end <= buf.Length
      && (buf.Length == 0 || buf.Length == START_BUF_SIZE)
      && src.Valid()
      && (err == None ==> !src.done)
      && (err == Some(EOF) || err == Some(Broken) ==> src.done && err == Some(if src.broken then Broken else EOF))
    }

    ghost function Buffered(): seq<byte>
      reads this`start, this`end, this`buf, buf
      requires start <= end <= buf.Length
    {
      buf[start..end]
    }

    ghost predicate Valid()
      reads this, buf, src
    {
      && Shape() && Means(split, meaning)
      && (err == None ==> Kept(meaning, seen, Buffered(), given))
      && (err != None ==> meaning.decode(seen) == given + meaning.decode(Buffered()))
    }

    /** All bytes that there will be. */
    ghost function Due(): seq<byte>
      reads this`err, this`seen, src
    {
      if err == None then seen + src.Due() else seen
    }

    /** Whether it gives up, sooner or later. */
    ghost predicate Stuck()
      reads this`err, src
    {
      if err == None then src.Stuck() else err == Some(NoProgress)
    }

    /** Once stopped: how many bytes came with the last read, at most. */
    ghost function Slack(): nat
      reads this`err
    {
      if err == Some(NoProgress) || !src.withData then 0 else src.tail
    }

    /** Once stopped: something is left for a last token. */
    ghost predicate Leftover()
      reads this`err, this`seen
    {
      (err != Some(NoProgress) && src.withData) || meaning.held(seen) != []
    }

    /** Shift or allocate when the buffer is full; what is held back always fits. */
    method MakeRoom()
      requires Shape() && end - start <= 3
      modifies this, buf
      ensures Shape() && (buf == old(buf) || fresh(buf)) && end < buf.Length
      ensures Buffered() == old(Buffered())
      ensures err == old(err) && token == old(token) && seen == old(seen) && given == old(given)
    {
      if start > 0 && (end == buf.Length || start > buf.Length / 2) {
        forall i | 0 <= i < end - start {
          buf[i] := buf[start + i];
        }
        start, end := 0, end - start;
      }
      if end == buf.Length {
        assert buf.Length == 0;
        buf := new byte[START_BUF_SIZE];
        start, end := 0, 0;
      }
    }

    method Store(p: seq<byte>)
      requires start <= end && end + |p| <= buf.Length
      modifies this`end, buf
      ensures end == old(end) + |p| && Buffered() == old(Buffered()) + p
    {
      forall i | 0 <= i < |p| {
        buf[end + i] := p[i];
      }
      end := end + |p|;
    }

    /** One read into the free part of the buffer. */
    method Fetch() returns (p: seq<byte>)
      requires Shape() && err == None && end < buf.Length
      modifies this, buf, src
      ensures Shape() && buf == old(buf) && given == old(given) && end == old(end) + |p|
      ensures Buffered() == old(Buffered()) + p && seen == old(seen) + p
      ensures p + src.Left() == old(src.Left())
      ensures err == None || err == Some(EOF) || err == Some(Broken)
      ensures err != None ==> src.Left() == [] && src.withData == (p != []) && |p| <= src.tail
      ensures old(src.Empties()) == if p == [] && err == None then 1 + src.Empties() else 0
      ensures old(src.Empties()) <= MAX_EMPTY_READS ==>
        p + src.Due() == old(src.Due()) && src.Stuck() == old(src.Stuck())
    {
      var stopped;
      p, stopped := src.Read(buf.Length - end);
      Store(p);
      seen := seen + p;
      if stopped {
        err := Some(if src.broken then Broken else EOF);
      }
    }

    /** Reads until something arrives, the stream stops, or nothing came 101 times. */
    method Refill() returns (p: seq<byte>)
      requires Shape() && err == None && end - start <= 3
      modifies this, buf, src
      ensures Shape() && (buf == old(buf) || fresh(buf)) && given == old(given)
      ensures Buffered() == old(Buffered()) + p && seen == old(seen) + p && p + src.Left() == old(src.Left())
      ensures err == None ==> p != []
      ensures err == Some(EOF) || err == Some(Broken) ==>
        src.Left() == [] && src.withData == (p != []) && |p| <= src.tail
      ensures err == Some(NoProgress) <==> old(src.Empties()) > MAX_EMPTY_READS
      ensures err == Some(NoProgress) ==> p == []
      ensures err != Some(NoProgress) ==> p + src.Due() == old(src.Due()) && src.Stuck() == old(src.Stuck())
    {
      MakeRoom();
      var empties := 0;
      while true
        invariant Shape() && err == None && end < buf.Length && (buf == old(buf) || fresh(buf))
        invariant Buffered() == old(Buffered()) && seen == old(seen) && given == old(given)
        invariant src.Left() == old(src.Left())
        invariant empties <= MAX_EMPTY_READS && empties + src.Empties() == old(src.Empties())
        invariant old(src.Empties()) <= MAX_EMPTY_READS ==>
          src.Due() == old(src.Due()) && src.Stuck() == old(src.Stuck())
        decreases MAX_EMPTY_READS - empties
      {
        p := Fetch();
        if err != None || p != [] {
          return;
        }
        empties := empties + 1;
        if empties > MAX_EMPTY_READS {
          err := Some(NoProgress);
          return;
        }
      }
    }

    /** Refill, after the split function has asked for more. */
    method More()
      requires Valid() && err == None && end - start <= 3 && Buffered() == meaning.held(Buffered())
      modifies this, buf, src
      ensures Valid() && (buf == old(buf) || fresh(buf)) && given == old(given)
      ensures Due() == old(Due()) && Stuck() == old(Stuck())
      ensures seen + src.Left() == old(seen) + old(src.Left())
      ensures |Buffered()| + |src.Left()| == |old(Buffered())| + |old(src.Left())|
      ensures |src.Left()| <= |old(src.Left())| && (err == None ==> |src.Left()| < |old(src.Left())|)
      ensures err == Some(EOF) || err == Some(Broken) ==> src.Left() == []
      ensures err != None ==> (Buffered() != [] <==> Leftover()) && Settled(meaning, seen, given, Slack())
    {
      ghost var before, held, left, due := seen, Buffered(), src.Left(), src.Due();
      var p := Refill();
      KeptMore(split, meaning, before, held, given, p);
      Append(before, p, src.Left());
      Append(before, p, src.Due());
      assert |left| == |p| + |src.Left()|;
      AnyStop(err);
    }

    /** Hands what is buffered to the split function. */
    method Split()
      requires Valid()
      modifies this`start, this`token, this`given
      ensures Valid() && given == old(given) + token
      ensures token == split(old(Buffered()), err != None).1
      ensures old(start) <= start && (token != [] <==> start > old(start))
      ensures err != None ==> start == end && (token != [] <==> old(Buffered()) != [])
      ensures err == None ==> end - start <= 3 && Buffered() == meaning.held(Buffered())
    {
      ghost var data := Buffered();
      assert SplitOk(split, meaning, data);
      var (advance, t) := split(buf[start..end], err != None);
      if err == None {
        KeptSplit(split, meaning, seen, data, given);
      } else {
        assert SplitOk(split, meaning, []);
      }
      start := start + advance;
      token := t;
      given := given + t;
      assert Buffered() == data[advance..];
    }

    /** One round of Scan: a token from what is buffered, or else more to read. */
    method Pass() returns (ok: bool)
      requires Valid() && err == None
      modifies this, buf, src
      ensures Valid() && (buf == old(buf) || fresh(buf)) && Due() == old(Due()) && Stuck() == old(Stuck())
      ensures seen + src.Left() == old(seen) + old(src.Left())
      ensures ok ==> err == None && token != [] && given == old(given) + token
      ensures ok ==> exists data, atEOF :: token == split(data, atEOF).1
      ensures ok ==> |Buffered()| + |src.Left()| < |old(Buffered())| + |old(src.Left())|
      ensures !ok ==> given == old(given) && |src.Left()| <= |old(src.Left())|
      ensures !ok ==> |Buffered()| + |src.Left()| <= |old(Buffered())| + |old(src.Left())|
      ensures !ok && err == None ==> |src.Left()| < |old(src.Left())|
      ensures err == Some(EOF) || err == Some(Broken) ==> src.Left() == []
      ensures err != None ==> (Buffered() != [] <==> Leftover()) && Settled(meaning, seen, given, Slack())
    {
      if end > start {
        Split();
        if token != [] {
          return true;
        }
        assert given == old(given);
      } else {
        HeldNothing(split, meaning);
      }
      More();
      ok := false;
    }

    /** The next token. The tokens together are the decoding of all that could be read, and
        nothing is left over after the last. */
    method Scan() returns (ok: bool)
      requires Valid()
      modifies this, buf, src
      ensures Valid() && (buf == old(buf) || fresh(buf))
      ensures Due() == old(Due()) && Stuck() == old(Stuck())
      ensures seen + src.Left() == old(seen) + old(src.Left())
      ensures ok ==> token != [] && given == old(given) + token
      ensures ok ==> exists data, atEOF :: token == split(data, atEOF).1
      ensures ok ==> |Buffered()| + |src.Left()| < |old(Buffered())| + |old(src.Left())|
      ensures err == None ==> ok
      ensures !ok ==> given == old(given)
      ensures err != None ==> start == end
      ensures err == Some(EOF) || err == Some(Broken) ==> old(err) != None || src.Left() == []
      ensures old(err) == None && err != None ==> (ok <==> Leftover()) && Settled(meaning, seen, old(given), Slack())
      ensures old(err) != None ==> err == old(err) && src.Left() == old(src.Left()) && seen == old(seen)
    {
      while err == None
        invariant Valid() && (buf == old(buf) || fresh(buf)) && given == old(given)
        invariant Due() == old(Due()) && Stuck() == old(Stuck())
        invariant seen + src.Left() == old(seen) + old(src.Left())
        invariant |Buffered()| + |src.Left()| <= |old(Buffered())| + |old(src.Left())|
        invariant err == Some(EOF) || err == Some(Broken) ==> old(err) != None || src.Left() == []
        invariant old(err) == None && err != None ==>
          (Buffered() != [] <==> Leftover()) && Settled(meaning, seen, given, Slack())
        invariant old(err) != None ==> err == old(err) && src.Left() == old(src.Left()) && seen == old(seen)
        decreases |src.Left()|, if err == None then 1 else 0
      {
        ok := Pass();
        if ok {
          return;
        }
      }
      ok := Last();
    }

    /** The last token, if anything is left for one. */
    method Last() returns (ok: bool)
      requires Valid() && err != None
      modifies this`start, this`end, this`token, this`given
      ensures Valid() && start == end
      ensures ok <==> old(Buffered()) != []
      ensures ok ==> token != [] && given == old(given) + token
      ensures ok ==> exists data, atEOF :: token == split(data, atEOF).1
      ensures !ok ==> given == old(given)
    {
      Split();
      ok := token != [];
      if !ok {
        start, end := 0, 0;
      }
    }
  }

  lemma HeldNothing(split: Splitter, m: Meaning)
    requires Means(split, m)
    ensures m.held([]) == [] && m.decode([]) == []
  {
    assert SplitOk(split, m, []);
  }

  // ---------------------------------------------------------------- the copy

  /** An io.Writer that takes `room` bytes and then fails. */
  class Writer {
    var contents: seq<byte>
    var room: nat

    constructor (room: nat)
      ensures contents == [] && this.room == room
    {
      contents, this.room := [], room;
    }

    method Write(p: seq<byte>) returns (n: nat, failed: bool)
      modifies this
      ensures n <= |p| && contents == old(contents) + p[..n] && room == old(room) - n
      ensures failed == (n < |p|) && (failed ==> room == 0) && (!failed ==> contents == old(contents) + p)
    {
      n := if |p| <= room then |p| else room;
      contents, room := contents + p[..n], room - n;
      failed := n < |p|;
      assert !failed ==> p[..n] == p;
    }
  }

  datatype CopyError = WriteFailed | ReadFailed(stop: Stop)

  /** Between two tokens, the text handed out is the beginning of the whole; at the end it is
      all of it. */
  lemma GivenIsPrefix(s: Scanner)
    requires s.Valid() && (s.err != None ==> s.start == s.end)
    ensures s.given <= s.meaning.decode(s.Due())
    ensures s.err == None ==> s.given <= s.meaning.decode(s.seen + s.src.Left())
    ensures s.err != None ==> s.given == s.meaning.decode(s.Due()) == s.meaning.decode(s.seen)
  {
    if s.err == None {
      assert s.meaning.decode(s.seen + s.src.Due()) == s.given + s.meaning.decode(s.Buffered() + s.src.Due());
      assert s.meaning.decode(s.seen + s.src.Left()) == s.given + s.meaning.decode(s.Buffered() + s.src.Left());
    } else {
      assert s.Buffered() == [];
      HeldNothing(s.split, s.meaning);
    }
  }

  /** One call of Scan, seen from a copy that is to write `text`; `whole` is the text of all that
      the reader has, which is more if the reader stalls. */
  method NextToken(s: Scanner, ghost text: seq<byte>, ghost total: seq<byte>) returns (ok: bool)
    requires s.Valid() && (s.err == None || s.err == Some(EOF))
    requires text == s.meaning.decode(s.Due()) && total == s.seen + s.src.Left()
    requires s.err == Some(EOF) ==> s.src.Left() == []
    modifies s, s.buf, s.src
    ensures s.Valid() && (s.buf == old(s.buf) || fresh(s.buf))
    ensures s.Due() == old(s.Due()) && s.Stuck() == old(s.Stuck()) && total == s.seen + s.src.Left()
    ensures s.err == Some(EOF) ==> s.src.Left() == []
    ensures ok ==> s.token != [] && s.given == old(s.given) + s.token
    ensures ok ==> |s.Buffered()| + |s.src.Left()| < |old(s.Buffered())| + |old(s.src.Left())|
    ensures s.err == None ==> ok
    ensures !ok ==> s.given == old(s.given)
    ensures s.given <= text && (s.err != None ==> s.given == text)
    ensures s.err == None || s.err == Some(EOF) ==> s.given <= s.meaning.decode(total)
    ensures s.err != None && s.err != Some(EOF) ==>
      (ok <==> s.Leftover()) && Settled(s.meaning, s.Due(), old(s.given), s.Slack())
  {
    ok := s.Scan();
    GivenIsPrefix(s);
    if s.err == Some(EOF) { assert total == s.seen; }
  }

  lemma AnyStop(err: Option<Stop>)
    ensures err == None || err == Some(EOF) || err == Some(Broken) || err == Some(NoProgress)
  {
    match err
    case None =>
    case Some(stop) => match stop case EOF => case Broken => case NoProgress =>
  }

  /** How the copy ended: at the end of the input with everything written; because the writer
      failed; or with an error of the reader, and then exactly the last token is missing. */
  ghost predicate Ended(s: Scanner, err: Option<CopyError>, out: seq<byte>, text: seq<byte>)
    reads s
  {
    match err
    case None => s.err != None && out == text && (s.err == Some(EOF) || !s.Leftover())
    case Some(WriteFailed) => |out| < |text|
    case Some(ReadFailed(stop)) =>
      && s.err == Some(stop) && stop != EOF && s.Leftover()
      && s.token != [] && out + s.token == text && Settled(s.meaning, s.seen, out, s.Slack())
  }

  /** Between two rounds of the copy: what is written is what was handed out. */
  ghost predicate Copying(s: Scanner, out: seq<byte>, text: seq<byte>, total: seq<byte>)
    reads s, s.buf, s.src
  {
    && s.Valid() && (s.err == None || (s.err == Some(EOF) && s.src.Left() == []))
    && text == s.meaning.decode(s.Due()) && total == s.seen + s.src.Left()
    && out == s.given <= text && out <= s.meaning.decode(total)
  }

  /** The call of Write: `handed` is the text handed out so far, with this token. */
  method Put(s: Scanner, dst: Writer, ghost before: seq<byte>, ghost handed: seq<byte>, ghost text: seq<byte>,
             ghost total: seq<byte>)
    returns (n: nat, failed: bool, ghost out: seq<byte>)
    requires Copying(s, handed, text, total) && s.token != []
    requires |s.token| <= |handed| && handed[|handed| - |s.token|..] == s.token
    requires dst.contents == before + handed[..|handed| - |s.token|]
    modifies dst
    ensures Copying(s, handed, text, total) && s.Due() == old(s.Due()) && s.Stuck() == old(s.Stuck())
    ensures dst.contents == before + out && |out| == |handed| - |s.token| + n && dst.room == old(dst.room) - n
    ensures out <= text && out <= s.meaning.decode(total)
    ensures if failed then dst.room == 0 && |out| < |text| else out == handed
  {
    ghost var written := handed[..|handed| - |s.token|];
    n, failed := dst.Write(s.token);
    out := written + s.token[..n];
    Append(before, written, s.token[..n]);
    assert handed == written + s.token;
    assert out == handed[..|out|];
  }

  /** One round of the loop of RuneCopy; `more` tells whether there is another. */
  method CopyToken(s: Scanner, dst: Writer, ghost before: seq<byte>, ghost out: seq<byte>, ghost text: seq<byte>,
                   ghost total: seq<byte>)
    returns (n: nat, more: bool, err: Option<CopyError>, ghost out': seq<byte>)
    requires Copying(s, out, text, total) && dst.contents == before + out
    modifies s, s.buf, s.src, dst
    ensures s.Valid() && (s.buf == old(s.buf) || fresh(s.buf)) && s.Due() == old(s.Due()) && s.Stuck() == old(s.Stuck())
    ensures dst.contents == before + out' && |out'| == |out| + n && dst.room == old(dst.room) - n
    ensures out' <= text && out' <= s.meaning.decode(total)
    ensures more ==> err == None && Copying(s, out', text, total)
    ensures more ==> |s.Buffered()| + |s.src.Left()| < |old(s.Buffered())| + |old(s.src.Left())|
    ensures !more ==> Ended(s, err, out', text) && (err == Some(WriteFailed) ==> dst.room == 0)
  {
    n, more, err, out' := 0, false, None, out;
    var ok := NextToken(s, text, total);
    if !ok {
      return;
    }
    if s.err != None && s.err != Some(EOF) {
      err := Some(ReadFailed(s.err.value));
      return;
    }
    var failed;
    n, failed, out' := Put(s, dst, before, s.given, text, total);
    if failed {
      err := Some(WriteFailed);
    } else {
      more := true;
    }
  }

  /** The loop of RuneCopy, for any split function that means what it should; `out` is what it
      writes. */
  method CopyTokens(s: Scanner, dst: Writer, ghost text: seq<byte>, ghost total: seq<byte>)
    returns (written: nat, err: Option<CopyError>, ghost out: seq<byte>)
    requires Copying(s, [], text, total)
    modifies s, s.buf, s.src, dst
    ensures dst.contents == old(dst.contents) + out && written == |out| && dst.room == old(dst.room) - |out|
    ensures out <= text && out <= s.meaning.decode(total)
    ensures s.Valid() && s.Due() == old(s.Due()) && s.Stuck() == old(s.Stuck())
    ensures Ended(s, err, out, text) && (err == Some(WriteFailed) ==> dst.room == 0)
  {
    written, err, out := 0, None, [];
    var more := true;
    while more
      invariant s.Valid() && (s.buf == old(s.buf) || fresh(s.buf)) && s.Due() == old(s.Due())
        && s.Stuck() == old(s.Stuck())
      invariant dst.contents == old(dst.contents) + out && written == |out| && dst.room == old(dst.room) - |out|
      invariant out <= text && out <= s.meaning.decode(total)
      invariant more ==> err == None && Copying(s, out, text, total)
      invariant !more ==> Ended(s, err, out, text) && (err == Some(WriteFailed) ==> dst.room == 0)
      decreases more, |s.Buffered()| + |s.src.Left()|
    {
      var n;
      n, more, err, out := CopyToken(s, dst, old(dst.contents), out, text, total);
      written := written + n;
    }
  }

  lemma Append<A>(a: seq<A>, b: seq<A>, c: seq<A>)
    ensures a + b + c == a + (b + c)
  {
  }

  /** The greedy split means what the scanner relies on. */
  lemma GreedyMeans()
    ensures Means(Greedy, Meaning(Decode, HeldBack))
    ensures Kept(Meaning(Decode, HeldBack), [], [], [])
  {
    var m := Meaning(Decode, HeldBack);
    forall data ensures SplitOk(Greedy, m, data) {
      GreedyAtEnd(data);
      GreedyStreams(data);
      TokensAreWellFormed(data, false);
      TokensAreWellFormed(data, true);
      if data != [] { DecodeIsSome(data); }
    }
    forall data, rest ensures m.held(data + rest) == m.held(m.held(data) + rest) {
      HeldBackPiecewise(data, rest);
    }
    assert Streams(m.decode, [], [], []) by {
      forall rest ensures m.decode([] + rest) == [] + m.decode([] + rest) { }
    }
  }

  lemma DecodeIsSome(data: seq<byte>)
    requires data != []
    ensures Decode(data) != []
  {
  }

  /** What the copy reports once it has read all it can: an error of the reader is noticed only if
      something is left to be decoded when it comes. */
  ghost function Verdict(stuck: bool, broken: bool, withData: bool, held: seq<byte>): Option<CopyError> {
    if stuck then (if held != [] then Some(ReadFailed(NoProgress)) else None)
    else if broken && (withData || held != []) then Some(ReadFailed(Broken))
    else None
  }

  method CopyWith(dst: Writer, src: Reader, split: Splitter, ghost m: Meaning)
    returns (written: nat, err: Option<CopyError>, ghost out: seq<byte>)
    requires src.Valid() && !src.done && Means(split, m) && Kept(m, [], [], [])
    modifies dst, src
    ensures dst.contents == old(dst.contents) + out && written == |out| && dst.room == old(dst.room) - |out|
    ensures out <= m.decode(old(src.Due())) && out <= m.decode(old(src.Left()))
    ensures err == None ==> out == m.decode(old(src.Due()))
    ensures err == None || err == Some(WriteFailed)
      || err == Verdict(old(src.Stuck()), src.broken, src.withData, m.held(old(src.Due())))
    ensures err == None ==> Verdict(old(src.Stuck()), src.broken, src.withData, m.held(old(src.Due()))) == None
    ensures err == Some(WriteFailed) ==> dst.room == 0 && |out| < |m.decode(old(src.Due()))|
    ensures err != None && err != Some(WriteFailed) ==>
      && |out| < |m.decode(old(src.Due()))|
      && Settled(m, old(src.Due()), out, if err == Some(ReadFailed(NoProgress)) || !src.withData then 0 else src.tail)
  {
    ghost var due, total := src.Due(), src.Left();
    var s := new Scanner(src, split, m);
    assert [] + due == due && [] + total == total;
    written, err, out := CopyTokens(s, dst, m.decode(due), total);
    EndIsVerdict(s, err, out, m.decode(due));
  }

  lemma EndIsVerdict(s: Scanner, err: Option<CopyError>, out: seq<byte>, text: seq<byte>)
    requires s.Valid() && Ended(s, err, out, text)
    ensures var verdict := Verdict(s.Stuck(), s.src.broken, s.src.withData, s.meaning.held(s.Due()));
      (err == None ==> verdict == None) && (err == None || err == Some(WriteFailed) || err == verdict)
    ensures err != None && err != Some(WriteFailed) ==> |out| < |text| && Settled(s.meaning, s.Due(), out, s.Slack())
  {
    if s.err != None { AnyStop(s.err); }
  }

  /** RuneCopy, exactly. `due` is what the reader delivers before it stops or stalls (all that it
      has, unless more than a hundred reads in a row give nothing). The output is always a
      beginning of the text of `due`. The copy reports nil if and only if all of that text is
      written and nothing was left to decode when an error or a stall came; so such an error can go
      unnoticed, otherwise than with io.Copy. If the error is reported, the last token is missing:
      what is written was settled before the last read. */
  method RuneCopy(dst: Writer, src: Reader) returns (written: nat, err: Option<CopyError>, ghost out: seq<byte>)
    requires src.Valid() && !src.done
    modifies dst, src
    ensures dst.contents == old(dst.contents) + out && written == |out| && dst.room == old(dst.room) - |out|
    ensures out <= Decode(old(src.Due())) && out <= Decode(old(src.Left()))
    ensures var verdict := Verdict(old(src.Stuck()), src.broken, src.withData, HeldBack(old(src.Due())));
      && (err == None <==> verdict == None && |Decode(old(src.Due()))| <= old(dst.room))
      && (err == None || err == Some(WriteFailed) || err == verdict)
    ensures err == None ==> out == Decode(old(src.Due()))
    ensures err == Some(WriteFailed) ==> written == old(dst.room) < |Decode(old(src.Due()))|
    ensures err != None && err != Some(WriteFailed) ==>
      |out| < |Decode(old(src.Due()))| && Settled(Meaning(Decode, HeldBack), old(src.Due()), out, src.tail)
    ensures err == Some(ReadFailed(NoProgress)) || (err == Some(ReadFailed(Broken)) && !src.withData) ==>
      Decode(old(src.Due())) == out + Decode(HeldBack(old(src.Due())))
    ensures !old(src.Stuck()) ==> old(src.Due()) == old(src.Left())
  {
    GreedyMeans();
    ComingIsPrefix(src.chunks, src.last);
    var m := Meaning(Decode, HeldBack);
    ghost var due := src.Due();
    written, err, out := CopyWith(dst, src, Greedy, m);
    if err != None && err != Some(WriteFailed) {
      SettledNow(m, due, out, if err == Some(ReadFailed(NoProgress)) || !src.withData then 0 else src.tail, src.tail);
    }
  }

  lemma SettledNow(m: Meaning, seen: seq<byte>, given: seq<byte>, slack: nat, tail: nat)
    requires Settled(m, seen, given, slack) && slack <= tail
    ensures Settled(m, seen, given, tail)
    ensures slack == 0 ==> m.decode(seen) == given + m.decode(m.held(seen))
  {
    var k :| 0 <= k <= |seen| && |seen| - k <= slack && SettledAt(m, seen[..k], given);
    if slack == 0 { assert seen[..k] == seen; }
  }

  /** A reader whose error goes unnoticed: it gives one letter, and then an error without data. */
  method UnnoticedError() returns (src: Reader, dst: Writer, err: Option<CopyError>)
    ensures src.broken && dst.contents == [0x61] && err == None
  {
    src := new Reader([[0x61]], [], true);
    dst := new Writer(1);
    assert src.Due() == [0x61] && !src.Stuck();
    assert IsRune([0x61]);
    RuneIsWellFormed([0x61]);
    WellFormedIsFixed([0x61]);
    assert HeldBack([0x61]) == [] by { HeldBackIsShort([0x61]); assert FullRune([0x61]); }
    var written;
    ghost var out;
    written, err, out := RuneCopy(dst, src);
  }

  // ---------------------------------------------------------------- independence of the reads

  /** The tokens made of an input that arrives in `pieces`, when `held` is still held back. */
  function Tokens(held: seq<byte>, pieces: seq<seq<byte>>): seq<seq<byte>>
    decreases |pieces|
  {
    if pieces == [] then [Greedy(held, true).1] else
    var data := held + pieces[0];
    [Greedy(data, false).1] + Tokens(data[Greedy(data, false).0..], pieces[1..])
  }

  /** Chunking independence, and validity: whatever the pieces, the tokens together are the
      decoding of the whole, and each is well-formed UTF-8 by itself. */
  lemma {:induction false} ChunkingIndependence(held: seq<byte>, pieces: seq<seq<byte>>)
    ensures Flatten(Tokens(held, pieces)) == Decode(held + Flatten(pieces))
    ensures forall i :: 0 <= i < |Tokens(held, pieces)| ==> WellFormed(Tokens(held, pieces)[i])
    decreases |pieces|
  {
    if pieces == [] {
      GreedyAtEnd(held);
      TokensAreWellFormed(held, true);
      assert held + [] == held;
      FlattenOne(Greedy(held, true).1);
    } else {
      var data := held + pieces[0];
      var a, t := Greedy(data, false).0, Greedy(data, false).1;
      var more := Flatten(pieces[1..]);
      GreedyStreams(data);
      TokensAreWellFormed(data, false);
      ChunkingIndependence(data[a..], pieces[1..]);
      StreamsRest(Decode, data, data[a..], t, more);
      Append(held, pieces[0], more);
    }
  }

  lemma StreamsRest(decode: seq<byte> -> seq<byte>, a: seq<byte>, b: seq<byte>, t: seq<byte>, rest: seq<byte>)
    requires Streams(decode, a, b, t)
    ensures decode(a + rest) == t + decode(b + rest)
  {
  }

  lemma FlattenOne(t: seq<byte>)
    ensures Flatten([t]) == t
  {
    assert Flatten([t]) == t + Flatten([t][1..]);
  }
}
