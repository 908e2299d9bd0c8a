/**
 The messages between the processes: the encoder driven by a format string, and what it
 promises to whoever reads the fields back one after the other.
 */
module Serialization {
  import opened Bytes
  import opened Options

  const INT_SIZE := 4
  const INT_LIMIT := 0x8000_0000

  type int32 = x: int | -0x8000_0000 <= x < 0x8000_0000

  /** What an int can give the length of. */
  type buffer = b: seq<byte> | |b| < INT_LIMIT

  datatype Kind = STRING | INT | CHAR | DOUBLE | UINT32 | VOID_PTR

  /**
   An argument of _serialize. A string is its bytes up to the terminator, a double its eight
   bytes as they lie in memory, and a pointer the bytes it points to.
   */
  datatype Arg =
    | Text(text: buffer)
    | Number(value: int32)
    | Letter(letter: byte)
    | Real(image: seq<byte>)
    | Unsigned(word: nat)
    | Block(bytes: buffer)

  function KindOf(a: Arg): Kind {
    match a
    case Text(_) => STRING
    case Number(_) => INT
    case Letter(_) => CHAR
    case Real(_) => DOUBLE
    case Unsigned(_) => UINT32
    case Block(_) => VOID_PTR
  }

  /** get_type; None for -1. */
  function GetType(name: string): Option<Kind> {
    if name == "s" then Some(STRING)
    else if name == "d" then Some(INT)
    else if name == "c" then Some(CHAR)
    else if name == "f" then Some(DOUBLE)
    else if name == "u" then Some(UINT32)
    else if name == "v" then Some(VOID_PTR)
    else None
  }

  // ---- signed words --------------------------------------------------------------------

  /** The four bytes of an int, two's complement, little-endian. */
  function IntBytes(v: int32): (r: seq<byte>)
    ensures |r| == INT_SIZE
  {
    Word(if v < 0 then v + WORD_LIMIT else v)
  }

  function IntAt(s: seq<byte>, at: nat): int32
    requires at + INT_SIZE <= |s|
  {
    var w := WordAt(s, at);
    if w < INT_LIMIT then w else w - WORD_LIMIT
  }

  /** Writing an int and reading it back, and the other way round. */
  lemma IntRoundTrip(s: seq<byte>, at: nat, v: int32)
    requires at + INT_SIZE <= |s|
    ensures s[at..at + INT_SIZE] == IntBytes(v) <==> IntAt(s, at) == v
  {
    if s[at..at + INT_SIZE] == IntBytes(v) {
      WordRoundTrip(s, at, if v < 0 then v + WORD_LIMIT else v);
    }
    WordOfWordAt(s, at);
  }

  /** The int read is the word there, counted from 2^31 on as negative. */
  lemma IntIsTwosComplement(s: seq<byte>, at: nat)
    requires at + INT_SIZE <= |s|
    ensures IntAt(s, at) % WORD_LIMIT == WordAt(s, at)
  {
  }

  // ---- the fields ------------------------------------------------------------------------

  /** Doubles have eight bytes, words are 32 bits. */
  predicate Proper(a: Arg) {
    (a.Real? ==> |a.image| == 8) && (a.Unsigned? ==> a.word < WORD_LIMIT)
  }

  predicate AllProper(args: seq<Arg>) {
    forall i :: 0 <= i < |args| ==> Proper(args[i])
  }

  function Field(a: Arg): (r: seq<byte>)
    requires Proper(a)
    ensures |r| == FieldSize(a)
  {
    match a
    case Text(t) => IntBytes(|t|) + t
    case Number(v) => IntBytes(v)
    case Letter(c) => [c]
    case Real(i) => i
    case Unsigned(w) => Word(w)
    case Block(b) => b
  }

  function FieldSize(a: Arg): nat {
    match a
    case Text(t) => INT_SIZE + |t|
    case Number(_) => INT_SIZE
    case Letter(_) => 1
    case Real(_) => 8
    case Unsigned(_) => INT_SIZE
    case Block(b) => |b|
  }

  predicate LiesAt(s: seq<byte>, o: nat, a: Arg) {
    Proper(a) && o + FieldSize(a) <= |s| && s[o..o + FieldSize(a)] == Field(a)
  }

  /** The fields one after the other. */
  function Encoded(args: seq<Arg>): seq<byte>
    requires AllProper(args)
  {
    if args == [] then [] else Encoded(args[..|args| - 1]) + Field(args[|args| - 1])
  }

  function TotalSize(args: seq<Arg>): nat {
    if args == [] then 0 else TotalSize(args[..|args| - 1]) + FieldSize(args[|args| - 1])
  }

  /** Each pointer comes right after an int that holds the length of what it points to. */
  predicate WellFormed(args: seq<Arg>) {
    && AllProper(args)
    && forall i :: 0 <= i < |args| && args[i].Block? ==> i > 0 && args[i - 1] == Number(|args[i].bytes|)
  }

  /**
   What _serialize appends for `a` after `sent`: of a pointer it takes as many bytes as the four
   bytes before it say. None where that reads before the stream, past the pointer's bytes, or
   where the length is negative: C leaves these undefined.
   */
  function Piece(sent: seq<byte>, a: Arg): Option<seq<byte>>
    requires Proper(a)
  {
    if !a.Block? then Some(Field(a))
    else if |sent| < INT_SIZE then None
    else
      var n := IntAt(sent, |sent| - INT_SIZE);
      if 0 <= n <= |a.bytes| then Some(a.bytes[..n]) else None
  }

  function Sent(args: seq<Arg>): Option<seq<byte>>
    requires AllProper(args)
  {
    if args == [] then Some([])
    else
      var before := Sent(args[..|args| - 1]);
      if before.None? then None
      else
        var piece := Piece(before.value, args[|args| - 1]);
        if piece.None? then None else Some(before.value + piece.value)
  }

  /** The encoding is exactly as long as its fields. */
  lemma {:induction false} EncodedSize(args: seq<Arg>)
    requires AllProper(args)
    ensures |Encoded(args)| == TotalSize(args)
  {
    if args != [] {
      EncodedSize(args[..|args| - 1]);
    }
  }

  /** Each field lies behind those before it. */
  lemma {:induction false} FieldAt(args: seq<Arg>, i: nat)
    requires AllProper(args) && i < |args|
    ensures LiesAt(Encoded(args), TotalSize(args[..i]), args[i])
  {
    hide Field, FieldSize;
    var n := |args| - 1;
    EncodedSize(args[..n]);
    if i < n {
      assert args[..n][..i] == args[..i];
      FieldAt(args[..n], i);
      LiesInLonger(Encoded(args[..n]), Encoded(args), TotalSize(args[..i]), args[i]);
    } else {
      assert args[..i] == args[..n];
    }
  }

  lemma LiesInLonger(s: seq<byte>, t: seq<byte>, o: nat, a: Arg)
    requires LiesAt(s, o, a) && s <= t
    ensures LiesAt(t, o, a)
  {
    assert t[o..o + FieldSize(a)] == s[o..o + FieldSize(a)];
  }

  lemma IntAtTheEnd(args: seq<Arg>, v: int32)
    requires AllProper(args) && args != [] && args[|args| - 1] == Number(v)
    ensures |Encoded(args)| >= INT_SIZE && IntAt(Encoded(args), |Encoded(args)| - INT_SIZE) == v
  {
    var p := Encoded(args);
    assert p[|p| - INT_SIZE..|p| - INT_SIZE + INT_SIZE] == IntBytes(v);
    IntRoundTrip(p, |p| - INT_SIZE, v);
  }

  /** With every pointer behind its length, the stream is all the fields whole. */
  lemma {:induction false} WellFormedIsSentWhole(args: seq<Arg>)
    requires WellFormed(args)
    ensures Sent(args) == Some(Encoded(args))
  {
    hide IntAt, IntBytes, FieldSize, TotalSize;
    if args != [] {
      var n := |args| - 1;
      WellFormedIsSentWhole(args[..n]);
      if args[n].Block? {
        assert args[..n][n - 1] == Number(|args[n].bytes|);
        IntAtTheEnd(args[..n], |args[n].bytes|);
        assert args[n].bytes[..|args[n].bytes|] == args[n].bytes;
      }
    }
  }

  /** A pointer arrives whole exactly when the four bytes sent before it are its length. */
  lemma BlockIsSentWhole(args: seq<Arg>, b: buffer)
    requires AllProper(args) && Sent(args).Some?
    ensures AllProper(args + [Block(b)])
    ensures var p := Sent(args).value;
      Sent(args + [Block(b)]) == Some(p + b) <==> |p| >= INT_SIZE && IntAt(p, |p| - INT_SIZE) == |b|
  {
    var all, p := args + [Block(b)], Sent(args).value;
    assert all[..|all| - 1] == args;
    var piece := Piece(p, Block(b));
    if piece.Some? && piece.value != b {
      assert |p + piece.value| != |p + b|;
    }
  }

  lemma {:induction false} SentPrefix(args: seq<Arg>, i: nat)
    requires AllProper(args) && i <= |args| && Sent(args).Some?
    ensures Sent(args[..i]).Some? && Sent(args[..i]).value <= Sent(args).value
    decreases |args|
  {
    if i == |args| {
      assert args[..i] == args;
    } else {
      assert args[..|args| - 1][..i] == args[..i];
      SentPrefix(args[..|args| - 1], i);
    }
  }

  // ---- what a reader finds -----------------------------------------------------------------

  /** Reading at `o` gives the argument: an int or word its value, a string its length and then its bytes in order. */
  predicate FoundAt(s: seq<byte>, o: nat, a: Arg) {
    match a
    case Text(t) =>
      o + INT_SIZE + |t| <= |s| && IntAt(s, o) == |t| && s[o + INT_SIZE..o + INT_SIZE + |t|] == t
    case Number(v) => o + INT_SIZE <= |s| && IntAt(s, o) == v
    case Letter(c) => o < |s| && s[o] == c
    case Real(image) => o + 8 <= |s| && s[o..o + 8] == image
    case Unsigned(w) => o + INT_SIZE <= |s| && WordAt(s, o) == w
    case Block(b) => o + |b| <= |s| && s[o..o + |b|] == b
  }

  /** A field lies at an offset exactly when reading there finds its argument. */
  lemma FieldIsFound(s: seq<byte>, o: nat, a: Arg)
    requires Proper(a)
    ensures LiesAt(s, o, a) <==> FoundAt(s, o, a)
  {
    hide IntAt, WordAt, IntBytes, Word;
    match a
    case Text(t) =>
      if o + INT_SIZE + |t| <= |s| {
        var n := INT_SIZE + |t|;
        SliceOfSlice(s, o, n, 0, INT_SIZE);
        SliceOfSlice(s, o, n, INT_SIZE, |t|);
        assert s[o..o + n] == s[o..o + n][..INT_SIZE] + s[o..o + n][INT_SIZE..];
        assert Field(a)[..INT_SIZE] == IntBytes(|t|) && Field(a)[INT_SIZE..] == t;
        IntRoundTrip(s, o, |t|);
      }
    case Number(v) => if o + INT_SIZE <= |s| { IntRoundTrip(s, o, v); }
    case Unsigned(w) =>
      if o + INT_SIZE <= |s| {
        if s[o..o + INT_SIZE] == Word(w) { WordRoundTrip(s, o, w); }
        WordOfWordAt(s, o);
      }
    case _ =>
  }

  /** In what is sent a reader finds every argument where the sizes of those before it add up to. */
  lemma SentIsFound(args: seq<Arg>, stream: seq<byte>, i: nat)
    requires WellFormed(args) && Sent(args).Some? && Sent(args).value <= stream && i < |args|
    ensures FoundAt(stream, TotalSize(args[..i]), args[i])
  {
    hide Field, FieldSize, TotalSize, LiesAt, FoundAt;
    WellFormedIsSentWhole(args);
    FieldAt(args, i);
    LiesInLonger(Encoded(args), stream, TotalSize(args[..i]), args[i]);
    FieldIsFound(stream, TotalSize(args[..i]), args[i]);
  }

  // ---- reading back --------------------------------------------------------------------

  /** `payload` starts with the encoding of `args`. */
  ghost predicate Carries(payload: seq<byte>, args: seq<Arg>) {
    WellFormed(args) && Encoded(args) <= payload
  }

  lemma SameField(s: seq<byte>, o: nat, x: Arg, y: Arg)
    requires KindOf(x) == KindOf(y)
    requires x.Block? ==> |x.bytes| == |y.bytes|
    requires LiesAt(s, o, x) && LiesAt(s, o, y)
    ensures x == y
  {
    match x
    case Number(v) =>
      IntRoundTrip(s, o, v);
      IntRoundTrip(s, o, y.value);
    case Unsigned(w) =>
      WordRoundTrip(s, o, w);
      WordRoundTrip(s, o, y.word);
    case Text(t) =>
      assert s[o..o + INT_SIZE] == Field(x)[..INT_SIZE] == IntBytes(|t|);
      assert s[o..o + INT_SIZE] == Field(y)[..INT_SIZE] == IntBytes(|y.text|);
      IntRoundTrip(s, o, |t|);
      IntRoundTrip(s, o, |y.text|);
      assert Field(x)[INT_SIZE..] == t && Field(y)[INT_SIZE..] == y.text;
    case _ =>
  }

  lemma {:induction false} SamePrefix(s: seq<byte>, a: seq<Arg>, b: seq<Arg>, i: nat)
    requires Carries(s, a) && Carries(s, b) && i <= |a| && i <= |b|
    requires forall k :: 0 <= k < i ==> KindOf(a[k]) == KindOf(b[k])
    ensures a[..i] == b[..i]
  {
    hide Field, FieldSize, Encoded, LiesAt, TotalSize;
    if i > 0 {
      var n := i - 1;
      SamePrefix(s, a, b, n);
      FieldAt(a, n);
      FieldAt(b, n);
      if a[n].Block? {
        assert a[n - 1] == a[..n][n - 1] == b[..n][n - 1] == b[n - 1];
      }
      var o := TotalSize(a[..n]);
      LiesInLonger(Encoded(a), s, o, a[n]);
      LiesInLonger(Encoded(b), s, o, b[n]);
      SameField(s, o, a[n], b[n]);
      assert a[..i] == a[..n] + [a[n]] && b[..i] == b[..n] + [b[n]];
    }
  }

  /** Whoever knows the kinds of the fields can tell them all: no bytes carry two lists of the same kinds. */
  lemma EncodingIsUnambiguous(s: seq<byte>, a: seq<Arg>, b: seq<Arg>)
    requires Carries(s, a) && Carries(s, b) && |a| == |b|
    requires forall k :: 0 <= k < |a| ==> KindOf(a[k]) == KindOf(b[k])
    ensures a == b
  {
    SamePrefix(s, a, b, |a|);
    assert a[..|a|] == a && b[..|a|] == b;
  }

  /** A reader whose offset stands behind the fields read so far, and finds one more there. */
  lemma ReadOn(s: seq<byte>, args: seq<Arg>, a: Arg)
    requires Carries(s, args) && WellFormed(args + [a])
    requires LiesAt(s, TotalSize(args), a)
    ensures Carries(s, args + [a]) && TotalSize(args + [a]) == TotalSize(args) + FieldSize(a)
  {
    hide Field, FieldSize;
    EncodedSize(args);
    assert (args + [a])[..|args|] == args;
    var o := TotalSize(args);
    assert s[..o + FieldSize(a)] == s[..o] + s[o..o + FieldSize(a)];
  }

  // ---- the format --------------------------------------------------------------------------

  /** string_split. */
  function Split(s: string, sep: char): (parts: seq<string>)
    ensures |parts| > 0
  {
    if s == [] then [""]
    else
      var rest := Split(s[1..], sep);
      if s[0] == sep then [""] + rest else [[s[0]] + rest[0]] + rest[1..]
  }

  /** The format starts with a percent sign and every name in it is one of the six. */
  predicate Accepted(format: string) {
    && format != ""
    && format[0] == '%'
    && forall i :: 1 <= i < |Split(format, '%')| ==> GetType(Split(format, '%')[i]).Some?
  }

  /** The arguments are those the format announces. */
  predicate Matches(format: string, args: seq<Arg>) {
    var types := Split(format, '%');
    |types| == |args| + 1 && forall i :: 1 <= i < |types| ==> GetType(types[i]) == Some(KindOf(args[i - 1]))
  }

  function NameOf(k: Kind): char {
    match k
    case STRING => 's'
    case INT => 'd'
    case CHAR => 'c'
    case DOUBLE => 'f'
    case UINT32 => 'u'
    case VOID_PTR => 'v'
  }

  /** The format that announces these arguments. */
  function FormatOf(args: seq<Arg>): string {
    if args == [] then "" else ['%', NameOf(KindOf(args[0]))] + FormatOf(args[1..])
  }

  lemma SplitField(name: char, rest: string)
    requires name != '%' && (rest == "" || rest[0] == '%')
    ensures Split(['%', name] + rest, '%') == ["", [name]] + Split(rest, '%')[1..]
    ensures Split(rest, '%')[0] == ""
  {
    var s := ['%', name] + rest;
    var t := s[1..];
    assert t == [name] + rest && t[1..] == rest;
    assert Split(rest, '%')[0] == "";
    assert Split(t, '%') == [[t[0]] + ""] + Split(rest, '%')[1..];
    assert [t[0]] + "" == [name];
    assert Split(s, '%') == [""] + Split(t, '%');
  }

  lemma {:induction false} SplitOfFormat(args: seq<Arg>)
    ensures var types := Split(FormatOf(args), '%');
      && |types| == |args| + 1 && types[0] == ""
      && forall i :: 1 <= i < |types| ==> types[i] == [NameOf(KindOf(args[i - 1]))]
  {
    if args != [] {
      var rest := FormatOf(args[1..]);
      SplitOfFormat(args[1..]);
      SplitField(NameOf(KindOf(args[0])), rest);
      var types, tail := Split(FormatOf(args), '%'), Split(rest, '%');
      assert types == ["", [NameOf(KindOf(args[0]))]] + tail[1..];
      forall i | 1 <= i < |types| ensures types[i] == [NameOf(KindOf(args[i - 1]))] {
        if i > 1 {
          assert types[i] == tail[i - 1] == [NameOf(KindOf(args[1..][i - 2]))];
        }
      }
    }
  }

  /** Every non-empty list of arguments has a format that _serialize accepts for it. */
  lemma FormatIsAccepted(args: seq<Arg>)
    requires args != []
    ensures Accepted(FormatOf(args)) && Matches(FormatOf(args), args)
  {
    SplitOfFormat(args);
  }

  /** The six names, one by one. */
  lemma NamesMean(args: seq<Arg>)
    ensures Matches("%s%d%c%f%u%v", args) <==>
            |args| == 6 && args[0].Text? && args[1].Number? && args[2].Letter? && args[3].Real? && args[4].Unsigned?
            && args[5].Block?
  {
    hide Split, FormatOf;
    SixTypes();
    var types := Split("%s%d%c%f%u%v", '%');
    assert GetType("s") == Some(STRING) && GetType("d") == Some(INT) && GetType("c") == Some(CHAR);
    assert GetType("f") == Some(DOUBLE) && GetType("u") == Some(UINT32) && GetType("v") == Some(VOID_PTR);
    if Matches("%s%d%c%f%u%v", args) {
      forall i | 1 <= i < 7 ensures GetType(types[i]) == Some(KindOf(args[i - 1])) {}
      assert GetType(types[1]) == Some(KindOf(args[0])) && GetType(types[2]) == Some(KindOf(args[1]));
      assert GetType(types[3]) == Some(KindOf(args[2])) && GetType(types[4]) == Some(KindOf(args[3]));
      assert GetType(types[5]) == Some(KindOf(args[4])) && GetType(types[6]) == Some(KindOf(args[5]));
    }
  }

  lemma SixTypes()
    ensures Split("%s%d%c%f%u%v", '%') == ["", "s", "d", "c", "f", "u", "v"]
  {
    hide Split;
    var all := [Text([]), Number(0), Letter(0), Real([]), Unsigned(0), Block([])];
    SplitOfFormat(all);
    SixNames(all);
    var types := Split(FormatOf(all), '%');
    assert types[1] == "s" && types[2] == "d" && types[3] == "c" && types[4] == "f" && types[5] == "u";
  }

  lemma SixNames(all: seq<Arg>)
    requires all == [Text([]), Number(0), Letter(0), Real([]), Unsigned(0), Block([])]
    ensures FormatOf(all) == "%s%d%c%f%u%v"
  {
    assert FormatOf(all[1..][1..][1..][1..][1..][1..]) == "";
    assert FormatOf(all[1..][1..][1..][1..][1..]) == "%v";
    assert FormatOf(all[1..][1..][1..][1..]) == "%u%v";
    assert FormatOf(all[1..][1..][1..]) == "%f%u%v";
    assert FormatOf(all[1..][1..]) == "%c%f%u%v";
    assert FormatOf(all[1..]) == "%d%c%f%u%v";
  }

  // ---- the encoder -------------------------------------------------------------------------

  /** memcpy into the stream. */
  method Copy(stream: array<byte>, at: nat, data: seq<byte>)
    requires at + |data| <= stream.Length
    modifies stream
    ensures stream[..at + |data|] == old(stream[..at]) + data
    ensures stream[at + |data|..] == old(stream[at + |data|..])
  {
    forall k | 0 <= k < |data| {
      stream[at + k] := data[k];
    }
  }

  /** The switch on one field: what it writes, and where the offset then stands. */
  method Append(stream: array<byte>, at: nat, a: Arg) returns (offset: nat)
    requires Proper(a) && at <= stream.Length
    requires Piece(stream[..at], a).Some? && at + |Piece(stream[..at], a).value| <= stream.Length
    modifies stream
    ensures offset <= stream.Length
    ensures stream[..offset] == old(stream[..at]) + old(Piece(stream[..at], a).value)
  {
    hide Word, IntBytes, IntAt;
    offset := at;
    match a
    case Text(text) =>
      var textLength := |text|;
      Copy(stream, offset, IntBytes(textLength));
      offset := offset + INT_SIZE;
      Copy(stream, offset, text);
      offset := offset + textLength;
    case Number(value) =>
      Copy(stream, offset, IntBytes(value));
      offset := offset + INT_SIZE;
    case Letter(value) =>
      Copy(stream, offset, [value]);
      offset := offset + 1;
    case Real(value) =>
      Copy(stream, offset, value);
      offset := offset + 8;
    case Unsigned(value) =>
      Copy(stream, offset, Word(value));
      offset := offset + INT_SIZE;
    case Block(value) =>
      var size := IntAt(stream[..offset], offset - INT_SIZE);
      Copy(stream, offset, value[..size]);
      offset := offset + size;
  }

  /**
   _serialize: null for a format it does not accept, otherwise a new buffer of the size asked
   for, whose first bytes are the fields. Too small a buffer is the caller's fault.
   */
  method Serialize(size: nat, format: string, args: seq<Arg>) returns (stream: array?<byte>)
    requires AllProper(args)
    requires Accepted(format) ==> Matches(format, args) && Sent(args).Some? && |Sent(args).value| <= size
    ensures stream == null <==> !Accepted(format)
    ensures stream != null ==>
      fresh(stream) && stream.Length == size && Sent(args).value <= stream[..]
    ensures stream != null && WellFormed(args) ==>
      forall i :: 0 <= i < |args| ==> FoundAt(stream[..], TotalSize(args[..i]), args[i])
  {
    hide FoundAt;
    if format == "" || format[0] != '%' {
      return null;
    }
    var count := CountFields(format);
    var types := Split(format, '%');
    var i := 1;
    while i <= count
      invariant 1 <= i <= count + 1
      invariant forall k :: 1 <= k < i ==> GetType(types[k]).Some?
    {
      if GetType(types[i]).None? {
        return null;
      }
      i := i + 1;
    }
    var buffer := new byte[size];
    var offset: nat := 0;
    i := 1;
    SentPrefix(args, 0);
    while i <= count
      invariant 1 <= i <= count + 1
      invariant offset <= size && Sent(args[..i - 1]).Some? && buffer[..offset] == Sent(args[..i - 1]).value
    {
      SentPrefix(args, i);
      assert args[..i][..i - 1] == args[..i - 1];
      offset := Append(buffer, offset, args[i - 1]);
      i := i + 1;
    }
    assert args[..count] == args;
    stream := buffer;
    if WellFormed(args) {
      forall j | 0 <= j < |args| ensures FoundAt(stream[..], TotalSize(args[..j]), args[j]) {
        SentIsFound(args, stream[..], j);
      }
    }
  }

  /** The loop that counts the percent signs: as many as there are names behind them. */
  method CountFields(format: string) returns (count: nat)
    ensures count + 1 == |Split(format, '%')|
  {
    count := 0;
    var n := 0;
    assert format[0..] == format;
    while n < |format|
      invariant n <= |format|
      invariant count + |Split(format[n..], '%')| == |Split(format, '%')|
    {
      assert format[n..][1..] == format[n + 1..];
      if format[n] == '%' {
        count := count + 1;
      }
      n := n + 1;
    }
  }
}
