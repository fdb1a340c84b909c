/** Management frames (`management_frame.c`) and their batch parser (`management_status_monitor.py`). */
module Frames {
  import opened Bytes
  import Crc32

  const MAGIC: seq<byte> := [77, 66, 71, 87]  // "MBGW"
  const HEADER_LENGTH := 13
  const CRC_LENGTH := 4
  const MAX_PAYLOAD_LENGTH := 8477
  const MAX_LENGTH := HEADER_LENGTH + MAX_PAYLOAD_LENGTH + CRC_LENGTH

  datatype Frame = Frame(messageType: byte, transactionId: u32, payload: seq<byte>)

  // ---- the wire format

  function Header(f: Frame): (h: seq<byte>)
    requires |f.payload| <= MAX_PAYLOAD_LENGTH
    ensures |h| == HEADER_LENGTH
  {
    MAGIC + [f.messageType] + WriteU32Le(f.transactionId) + WriteU32Le(|f.payload|)
  }

  /** `encode_management_frame` */
  function Encode(f: Frame): (s: seq<byte>)
    requires |f.payload| <= MAX_PAYLOAD_LENGTH
    ensures |s| == HEADER_LENGTH + |f.payload| + CRC_LENGTH
  {
    var body := Header(f) + f.payload;
    body + WriteU32Le(Crc32.Crc(body))
  }

  // ---- the reference parser: look at the front, drop one byte or take one frame

  /** The front of `s` is, or may still become, the magic. */
  predicate IsViable(s: seq<byte>) {
    forall j | 0 <= j < 4 && j < |s| :: s[j] == MAGIC[j]
  }

  function PayloadLength(s: seq<byte>): u32
    requires |s| >= HEADER_LENGTH
  {
    ReadU32Le(s, 9)
  }

  datatype Verdict = Drop | Wait | Take(length: nat)

  /** What the front of the buffer allows. */
  function Judge(s: seq<byte>): (v: Verdict)
    ensures v.Take? ==> HEADER_LENGTH + CRC_LENGTH <= v.length <= |s| && v.length <= MAX_LENGTH
    ensures v.Drop? ==> s != []
  {
    if !IsViable(s) then Drop
    else if |s| < HEADER_LENGTH then Wait
    else if PayloadLength(s) > MAX_PAYLOAD_LENGTH then Drop
    else
      var n := HEADER_LENGTH + PayloadLength(s);
      if |s| < n + CRC_LENGTH then Wait
      else if ReadU32Le(s, n) == Crc32.Crc(s[..n]) then Take(n + CRC_LENGTH)
      else Drop
  }

  function FrameAt(s: seq<byte>, length: nat): Frame
    requires HEADER_LENGTH + CRC_LENGTH <= length <= |s|
  {
    Frame(s[4], ReadU32Le(s, 5), s[HEADER_LENGTH..length - CRC_LENGTH])
  }

  /** The frames in `s` and the bytes kept for later. */
  function Parse(s: seq<byte>): (r: (seq<Frame>, seq<byte>))
    decreases |s|
  {
    match Judge(s)
    case Wait => ([], s)
    case Drop => Parse(s[1..])
    case Take(n) =>
      var (frames, rest) := Parse(s[n..]);
      ([FrameAt(s, n)] + frames, rest)
  }

  lemma ParseStep(s: seq<byte>)
    ensures Judge(s).Wait? ==> Parse(s) == ([], s)
    ensures Judge(s).Drop? ==> Parse(s) == Parse(s[1..])
    ensures Judge(s).Take? ==>
      var rest := Parse(s[Judge(s).length..]);
      Parse(s) == ([FrameAt(s, Judge(s).length)] + rest.0, rest.1)
  {
    hide Judge, FrameAt;
  }

  /** A verdict other than waiting does not depend on what follows. */
  lemma JudgeAppend(a: seq<byte>, b: seq<byte>)
    requires !Judge(a).Wait?
    ensures Judge(a + b) == Judge(a)
    ensures (a + b)[1..] == a[1..] + b
    ensures Judge(a).Take? ==> FrameAt(a + b, Judge(a).length) == FrameAt(a, Judge(a).length)
    ensures Judge(a).Take? ==> (a + b)[Judge(a).length..] == a[Judge(a).length..] + b
  {
    hide Crc32.Crc, ReadU32Le;
    if IsViable(a) && |a| >= HEADER_LENGTH {
      ReadU32LeAppend(a, b, 9);
      ReadU32LeAppend(a, b, 5);
      assert PayloadLength(a + b) == PayloadLength(a);
      var n := HEADER_LENGTH + PayloadLength(a);
      if PayloadLength(a) <= MAX_PAYLOAD_LENGTH {
        ReadU32LeAppend(a, b, n);
        assert (a + b)[..n] == a[..n];
        assert (a + b)[HEADER_LENGTH..n] == a[HEADER_LENGTH..n];
      }
    } else {
      var j :| 0 <= j < 4 && j < |a| && a[j] != MAGIC[j];
      assert (a + b)[j] != MAGIC[j];
    }
  }

  /** Parsing in two parts gives the frames of the whole. */
  lemma {:induction false} ParseAppend(a: seq<byte>, b: seq<byte>)
    ensures Parse(a + b).0 == Parse(a).0 + Parse(Parse(a).1 + b).0
    ensures Parse(a + b).1 == Parse(Parse(a).1 + b).1
    decreases |a|
  {
    hide Judge, FrameAt;
    match Judge(a) {
      case Wait =>
      case Drop =>
        JudgeAppend(a, b);
        ParseAppend(a[1..], b);
      case Take(n) =>
        JudgeAppend(a, b);
        ParseAppend(a[n..], b);
    }
  }

  /** What is kept is itself unparsable so far, and shorter than the longest frame. */
  lemma {:induction false} RestIsSettled(s: seq<byte>)
    ensures Judge(Parse(s).1) == Wait && |Parse(s).1| < MAX_LENGTH
    decreases |s|
  {
    hide Crc32.Crc, ReadU32Le, FrameAt;
    match Judge(s) {
      case Wait =>
      case Drop => RestIsSettled(s[1..]);
      case Take(n) => RestIsSettled(s[n..]);
    }
  }

  lemma NothingWaits()
    ensures Judge([]) == Wait && Parse([]) == ([], [])
  {
  }

  lemma SettledKeeps(s: seq<byte>)
    requires Judge(s) == Wait
    ensures Parse(s) == ([], s) && |s| < MAX_LENGTH
  {
    hide Crc32.Crc, ReadU32Le;
  }

  // ---- the Python parser, as written

  /** `bytearray.find(MAGIC)`, with the length for "not found". */
  function FindMagic(s: seq<byte>): (i: nat)
    ensures i <= |s|
    ensures i < |s| ==> i + 4 <= |s|
  {
    if |s| < 4 then |s| else if s[..4] == MAGIC then 0 else FindMagic(s[1..]) + 1
  }

  /** The last `keep` bytes begin the magic. */
  predicate EndsWithMagic(s: seq<byte>, keep: nat)
    requires keep <= 3 && keep <= |s|
  {
    s[|s| - keep..] == MAGIC[..keep]
  }

  /** `_keep_possible_magic_prefix`: the longest suffix, up to `keep` bytes, that begins the magic. */
  function KeepLength(s: seq<byte>, keep: nat): (k: nat)
    requires keep <= 3 && keep <= |s|
    ensures k <= keep
  {
    if keep == 0 || EndsWithMagic(s, keep) then keep else KeepLength(s, keep - 1)
  }

  lemma KeepStep(s: seq<byte>, keep: nat)
    requires keep <= 3 && keep <= |s|
    ensures KeepLength(s, keep) == (if keep == 0 || EndsWithMagic(s, keep) then keep else KeepLength(s, keep - 1))
  {
  }

  /** What the loop of `ManagementFrameParser.feed` does with a buffer that begins with the magic. */
  function BatchJudge(t: seq<byte>): (v: Verdict)
    requires t != []
    ensures v.Take? ==> HEADER_LENGTH + CRC_LENGTH <= v.length <= |t|
  {
    if |t| < HEADER_LENGTH then Wait
    else if PayloadLength(t) > MAX_PAYLOAD_LENGTH then Drop
    else
      var n := HEADER_LENGTH + PayloadLength(t);
      if |t| < n + CRC_LENGTH then Wait
      else if ReadU32Le(t, n) != Crc32.Crc(t[..n]) then Drop
      else Take(n + CRC_LENGTH)
  }

  /** `ManagementFrameParser.feed` on a buffer. */
  function BatchParse(s: seq<byte>): (seq<Frame>, seq<byte>)
    decreases |s|
  {
    var at := FindMagic(s);
    if at == |s| then
      var keep := KeepLength(s, if |s| < 3 then |s| else 3);
      ([], s[|s| - keep..])
    else
      var t := s[at..];
      match BatchJudge(t)
      case Wait => ([], t)
      case Drop => BatchParse(t[1..])
      case Take(n) =>
        var (frames, rest) := BatchParse(t[n..]);
        ([FrameAt(t, n)] + frames, rest)
  }

  /** Bytes in front of the first magic are dropped one by one. */
  lemma {:induction false} ParseToMagic(s: seq<byte>)
    requires FindMagic(s) < |s|
    ensures Parse(s) == Parse(s[FindMagic(s)..]) && s[FindMagic(s)..][..4] == MAGIC
    decreases |s|
  {
    hide Parse;
    if s[..4] == MAGIC {
      assert s[0..] == s;
    } else {
      ParseDrops(s);
      ParseToMagic(s[1..]);
      assert s[1..][FindMagic(s[1..])..] == s[FindMagic(s)..];
    }
  }

  /** Without a magic, everything is dropped but the longest suffix that may become one. */
  lemma {:induction false} ParseNoMagic(s: seq<byte>, keep: nat)
    requires FindMagic(s) == |s| && keep == (if |s| < 3 then |s| else 3)
    ensures Parse(s) == ([], s[|s| - KeepLength(s, keep)..])
    decreases |s|
  {
    hide Parse, KeepLength;
    if |s| < 4 {
      ParseSuffix(s, keep);
      assert s[|s| - keep..] == s;
    } else {
      assert s[..4] != MAGIC && FindMagic(s[1..]) == |s[1..]|;
      ParseDrops(s);
      ParseNoMagic(s[1..], 3);
      KeepShorter(s, 3);
    }
  }

  lemma ParseDrops(s: seq<byte>)
    requires |s| >= 4 && s[..4] != MAGIC
    ensures Parse(s) == Parse(s[1..])
  {
    hide Crc32.Crc, ReadU32Le, FrameAt;
    var j :| 0 <= j < 4 && s[..4][j] != MAGIC[j];
    assert s[j] != MAGIC[j];
  }

  lemma {:induction false} KeepShorter(s: seq<byte>, keep: nat)
    requires keep <= 3 < |s|
    ensures KeepLength(s[1..], keep) == KeepLength(s, keep)
    ensures s[1..][|s| - 1 - KeepLength(s, keep)..] == s[|s| - KeepLength(s, keep)..]
  {
    assert s[1..][|s| - 1 - keep..] == s[|s| - keep..];
    if keep > 0 {
      KeepShorter(s, keep - 1);
    }
  }

  lemma {:induction false} ParseSuffix(s: seq<byte>, keep: nat)
    requires keep <= 3 && keep <= |s|
    ensures Parse(s[|s| - keep..]) == ([], s[|s| - KeepLength(s, keep)..])
    decreases keep
  {
    hide Crc32.Crc, ReadU32Le, FrameAt;
    var t := s[|s| - keep..];
    if keep == 0 || t == MAGIC[..keep] {
      assert forall j | 0 <= j < keep :: t[j] == MAGIC[..keep][j];
    } else {
      var j :| 0 <= j < keep && t[j] != MAGIC[..keep][j];
      assert !IsViable(t);
      assert t[1..] == s[|s| - (keep - 1)..];
      ParseSuffix(s, keep - 1);
    }
  }

  /** The Python parser and the reference parser agree on every buffer. */
  lemma {:induction false} BatchParseIsParse(s: seq<byte>)
    ensures BatchParse(s) == Parse(s)
    decreases |s|
  {
    hide Judge, BatchJudge, FrameAt, FindMagic, KeepLength, Parse;
    var at := FindMagic(s);
    if at == |s| {
      ParseNoMagic(s, if |s| < 3 then |s| else 3);
    } else {
      ParseToMagic(s);
      var t := s[at..];
      JudgesAgree(t);
      ParseStep(t);
      match BatchJudge(t) {
        case Wait =>
        case Drop => BatchParseIsParse(t[1..]);
        case Take(n) => BatchParseIsParse(t[n..]);
      }
    }
  }

  lemma JudgesAgree(t: seq<byte>)
    requires |t| >= 4 && t[..4] == MAGIC
    ensures BatchJudge(t) == Judge(t)
  {
    hide Crc32.Crc, ReadU32Le;
    assert forall j | 0 <= j < 4 :: t[j] == t[..4][j];
  }

  // ---- round trips

  predicate MagicAt(s: seq<byte>, i: nat) {
    i + 4 <= |s| && s[i..i + 4] == MAGIC
  }

  predicate HasNoMagic(noise: seq<byte>) {
    forall i: nat | i < |noise| :: !MagicAt(noise, i)
  }

  /** The fields of an encoded frame, whatever follows it. */
  lemma EncodedFields(f: Frame, tail: seq<byte>, s: seq<byte>)
    requires |f.payload| <= MAX_PAYLOAD_LENGTH && s == Encode(f) + tail
    ensures var n := HEADER_LENGTH + |f.payload|;
            s[..4] == MAGIC && s[4] == f.messageType && s[HEADER_LENGTH..n] == f.payload
            && s[5..9] == WriteU32Le(f.transactionId) && s[9..13] == WriteU32Le(|f.payload|)
            && s[n..n + 4] == WriteU32Le(Crc32.Crc(s[..n])) && s[n + 4..] == tail
  {
    hide Crc32.Crc, WriteU32Le;
    var n := HEADER_LENGTH + |f.payload|;
    var body := Header(f) + f.payload;
    assert s[..n] == body;
    assert s[..HEADER_LENGTH] == Header(f);
    assert s[..4] == s[..HEADER_LENGTH][..4];
    assert s[5..9] == s[..HEADER_LENGTH][5..9];
    assert s[9..13] == s[..HEADER_LENGTH][9..13];
  }

  lemma EncodeIsTaken(f: Frame, tail: seq<byte>)
    requires |f.payload| <= MAX_PAYLOAD_LENGTH
    ensures var s := Encode(f) + tail;
            Judge(s) == Take(|Encode(f)|) && FrameAt(s, |Encode(f)|) == f && s[|Encode(f)|..] == tail
  {
    hide Crc32.Crc, WriteU32Le, ReadU32Le, Encode, Header;
    var s := Encode(f) + tail;
    var n := HEADER_LENGTH + |f.payload|;
    EncodedFields(f, tail, s);
    assert forall j | 0 <= j < 4 :: s[j] == s[..4][j];
    ReadU32LeSlice(s, 5, WriteU32Le(f.transactionId));
    ReadU32LeSlice(s, 9, WriteU32Le(|f.payload|));
    ReadU32LeSlice(s, n, WriteU32Le(Crc32.Crc(s[..n])));
    U32LeRoundTrip(f.transactionId);
    U32LeRoundTrip(|f.payload|);
    U32LeRoundTrip(Crc32.Crc(s[..n]));
  }

  lemma NoiseIsNotViable(noise: seq<byte>, s: seq<byte>)
    requires noise != [] && HasNoMagic(noise) && |s| >= 4 && s[..4] == MAGIC
    ensures !IsViable(noise + s) && HasNoMagic(noise[1..])
  {
    var t := noise + s;
    if |noise| >= 4 {
      assert !MagicAt(noise, 0);
      var j :| 0 <= j < 4 && noise[0..4][j] != MAGIC[j];
      assert t[j] == noise[0..4][j];
    } else {
      assert t[|noise|] == s[..4][0];
    }
    forall i: nat | i < |noise[1..]| ensures !MagicAt(noise[1..], i) {
      assert !MagicAt(noise, i + 1);
      if i + 4 <= |noise[1..]| {
        assert noise[1..][i..i + 4] == noise[i + 1..i + 1 + 4];
      }
    }
  }

  /** Noise without a magic is dropped, even where it meets a frame. */
  lemma {:induction false} NoiseIsDropped(noise: seq<byte>, s: seq<byte>)
    requires HasNoMagic(noise) && |s| >= 4 && s[..4] == MAGIC
    ensures Parse(noise + s) == Parse(s)
    decreases |noise|
  {
    hide Crc32.Crc, ReadU32Le, FrameAt, HasNoMagic, IsViable;
    if noise == [] {
      assert noise + s == s;
    } else {
      NoiseIsNotViable(noise, s);
      assert (noise + s)[1..] == noise[1..] + s;
      NoiseIsDropped(noise[1..], s);
    }
  }

  datatype Item = Item(noise: seq<byte>, frame: Frame)

  /** A stream of frames, each preceded by noise. */
  function Stream(items: seq<Item>): seq<byte>
    requires forall i | 0 <= i < |items| :: |items[i].frame.payload| <= MAX_PAYLOAD_LENGTH
  {
    if items == [] then [] else items[0].noise + Encode(items[0].frame) + Stream(items[1..])
  }

  lemma ItemParsesBack(item: Item, tail: seq<byte>)
    requires |item.frame.payload| <= MAX_PAYLOAD_LENGTH && HasNoMagic(item.noise)
    ensures Parse(item.noise + Encode(item.frame) + tail) == ([item.frame] + Parse(tail).0, Parse(tail).1)
  {
    hide Crc32.Crc, Judge, FrameAt, Encode, HasNoMagic;
    var s := Encode(item.frame) + tail;
    EncodedFields(item.frame, tail, s);
    NoiseIsDropped(item.noise, s);
    EncodeIsTaken(item.frame, tail);
    assert item.noise + Encode(item.frame) + tail == item.noise + s;
  }

  /** Frames survive any noise between them that does not itself contain a magic, and nothing is left over. */
  lemma {:induction false} StreamParsesBack(items: seq<Item>)
    requires forall i | 0 <= i < |items| :: |items[i].frame.payload| <= MAX_PAYLOAD_LENGTH && HasNoMagic(items[i].noise)
    ensures Parse(Stream(items)) == (FramesOf(items), [])
  {
    hide Parse, Encode, HasNoMagic, FramesOf;
    if items == [] {
      NothingWaits();
      assert FramesOf(items) == [];
    } else {
      ItemParsesBack(items[0], Stream(items[1..]));
      StreamParsesBack(items[1..]);
      FramesOfCons(items);
    }
  }

  function FramesOf(items: seq<Item>): (frames: seq<Frame>)
    ensures |frames| == |items|
  {
    seq(|items|, i requires 0 <= i < |items| => items[i].frame)
  }

  lemma FramesOfCons(items: seq<Item>)
    requires items != []
    ensures FramesOf(items) == [items[0].frame] + FramesOf(items[1..])
  {
  }

  /** Conversely, a frame the parser takes is its own encoding. */
  lemma TakenIsEncoded(s: seq<byte>)
    requires Judge(s).Take?
    ensures |FrameAt(s, Judge(s).length).payload| <= MAX_PAYLOAD_LENGTH
    ensures s[..Judge(s).length] == Encode(FrameAt(s, Judge(s).length))
  {
    hide Crc32.Crc, WriteU32Le, ReadU32Le;
    var length := Judge(s).length;
    var n, f := length - CRC_LENGTH, FrameAt(s, length);
    U32LeCanonical(s, 5);
    U32LeCanonical(s, 9);
    U32LeCanonical(s, n);
    assert s[..4] == MAGIC;
    assert s[..HEADER_LENGTH] == s[..4] + [s[4]] + s[5..9] + s[9..13];
    assert s[..n] == Header(f) + f.payload;
    assert s[..length] == s[..n] + s[n..n + 4];
  }

  /** `s` holds an encoding of `f` that begins at `i`. */
  predicate OccursAt(s: seq<byte>, f: Frame, i: nat) {
    |f.payload| <= MAX_PAYLOAD_LENGTH && i + |Encode(f)| <= |s| && s[i..i + |Encode(f)|] == Encode(f)
  }

  lemma OccursLater(s: seq<byte>, n: nat, f: Frame, i: nat)
    requires n <= |s| && OccursAt(s[n..], f, i)
    ensures OccursAt(s, f, n + i)
  {
    hide Encode;
    assert s[n..][i..i + |Encode(f)|] == s[n + i..n + i + |Encode(f)|];
  }

  /** Every frame emitted occurs in the stream, whole. */
  lemma {:induction false} EmittedOccurs(s: seq<byte>, k: nat) returns (i: nat)
    requires k < |Parse(s).0|
    ensures OccursAt(s, Parse(s).0[k], i)
    decreases |s|
  {
    hide Judge, FrameAt, Encode, OccursAt;
    match Judge(s) {
      case Drop =>
        i := EmittedOccurs(s[1..], k);
        OccursLater(s, 1, Parse(s).0[k], i);
        i := i + 1;
      case Take(n) =>
        if k == 0 {
          TakenOccurs(s);
          i := 0;
        } else {
          i := EmittedOccurs(s[n..], k - 1);
          OccursLater(s, n, Parse(s).0[k], i);
          i := i + n;
        }
    }
  }

  lemma TakenOccurs(s: seq<byte>)
    requires Judge(s).Take?
    ensures OccursAt(s, FrameAt(s, Judge(s).length), 0)
  {
    hide Encode, Judge, FrameAt;
    TakenIsEncoded(s);
    assert s[0..Judge(s).length] == s[..Judge(s).length];
  }
}
