/** The throttle key of an unbounded write: the streaming normalization and what it computes. */
module WriteKey {
  import opened Text
  import opened Utf8

  const KEY_LEN := 200

  // ----- specification: split, join, cut ------------------------------------------------------

  /** One decoded rune: its bytes, and whether it is white space. */
  datatype Rune = Rune(bytes: string, space: bool)

  function Runes(s: string): seq<Rune> {
    if s == "" then []
    else
      var (r, n) := DecodeRune(s);
      [Rune(s[..n], IsSpace(r))] + Runes(s[n..])
  }

  /** The bytes of the maximal space-free prefix, and how many runes it takes. */
  function WordBytes(rs: seq<Rune>): string {
    if rs == [] || rs[0].space then "" else rs[0].bytes + WordBytes(rs[1..])
  }

  function WordLen(rs: seq<Rune>): (n: nat)
    ensures n <= |rs|
    ensures n == 0 <==> rs == [] || rs[0].space
    ensures n < |rs| ==> rs[n].space
  {
    if rs == [] || rs[0].space then 0 else 1 + WordLen(rs[1..])
  }

  /** strings.Fields */
  function Fields(rs: seq<Rune>): seq<string>
    decreases |rs|
  {
    if rs == [] then []
    else if rs[0].space then Fields(rs[1..])
    else [WordBytes(rs)] + Fields(rs[WordLen(rs)..])
  }

  /** strings.Join with one space */
  function Join(words: seq<string>): string {
    if words == [] then ""
    else if |words| == 1 then words[0]
    else words[0] + " " + Join(words[1..])
  }

  function Cut(s: string): string {
    if |s| <= KEY_LEN then s else s[..KEY_LEN]
  }

  function Key(query: string): string {
    Cut(Join(Fields(Runes(query))))
  }

  // ----- the same text as a stream ------------------------------------------------------------

  /** What is still to be written when `rs` remains: `pending` asks for a separator before the next
      word, `started` says whether anything has been written. */
  function Stream(rs: seq<Rune>, pending: bool, started: bool): string
    decreases |rs|
  {
    if rs == [] then ""
    else if rs[0].space then Stream(rs[1..], started, started)
    else (if pending then " " else "") + rs[0].bytes + Stream(rs[1..], false, true)
  }

  /** Inside a word the stream first finishes it. */
  lemma {:induction false} StreamWord(rs: seq<Rune>)
    ensures Stream(rs, false, true) == WordBytes(rs) + Stream(rs[WordLen(rs)..], false, true)
    decreases |rs|
  {
    if rs == [] || rs[0].space {
      assert rs[0..] == rs;
    } else {
      StreamWord(rs[1..]);
      assert rs[1..][WordLen(rs[1..])..] == rs[WordLen(rs)..];
      Assoc(rs[0].bytes, WordBytes(rs[1..]), Stream(rs[WordLen(rs)..], false, true));
    }
  }

  /** What is left to write when a word rune comes next. */
  lemma StreamRune(rs: seq<Rune>, pending: bool, started: bool)
    requires rs != [] && !rs[0].space
    ensures Stream(rs, pending, started) ==
            (if pending then " " else "") + (rs[0].bytes + Stream(rs[1..], false, true))
  {
    Assoc(if pending then " " else "", rs[0].bytes, Stream(rs[1..], false, true));
  }

  /** A word comes first: its bytes, then what is left behind it. */
  lemma StreamHead(rs: seq<Rune>)
    requires rs != [] && !rs[0].space
    ensures rs[0].bytes + Stream(rs[1..], false, true) == WordBytes(rs) + Stream(rs[WordLen(rs)..], false, true)
  {
    var rest := rs[WordLen(rs)..];
    StreamWord(rs[1..]);
    assert rs[1..][WordLen(rs[1..])..] == rest;
    Assoc(rs[0].bytes, WordBytes(rs[1..]), Stream(rest, false, true));
  }

  lemma JoinCons(w: string, ws: seq<string>)
    ensures Join([w] + ws) == w + if ws == [] then "" else " " + Join(ws)
  {
    assert ([w] + ws)[1..] == ws;
    Assoc(w, " ", Join(ws));
  }

  /** The separators and fields that follow a word. */
  function Further(rs: seq<Rune>): string {
    if Fields(rs) == [] then "" else " " + Join(Fields(rs))
  }

  lemma FieldsHead(rs: seq<Rune>)
    requires rs != [] && !rs[0].space
    ensures Join(Fields(rs)) == WordBytes(rs) + Further(rs[WordLen(rs)..])
    ensures Further(rs) == " " + Join(Fields(rs))
  {
    JoinCons(WordBytes(rs), Fields(rs[WordLen(rs)..]));
  }

  /** Behind white space, and right behind a word, the stream is the further fields. */
  lemma {:induction false} StreamFurther(rs: seq<Rune>)
    ensures Stream(rs, true, true) == Further(rs)
    ensures rs == [] || rs[0].space ==> Stream(rs, false, true) == Further(rs)
    decreases |rs|
  {
    if rs != [] {
      if rs[0].space {
        StreamFurther(rs[1..]);
      } else {
        StreamFurther(rs[WordLen(rs)..]);
        StreamHead(rs);
        FieldsHead(rs);
        StreamRune(rs, true, true);
      }
    }
  }

  /** The stream from the start is the joined fields. */
  lemma {:induction false} StreamIsJoin(rs: seq<Rune>)
    ensures Stream(rs, false, false) == Join(Fields(rs))
    decreases |rs|
  {
    if rs != [] {
      if rs[0].space {
        StreamIsJoin(rs[1..]);
      } else {
        StreamFurther(rs[WordLen(rs)..]);
        StreamHead(rs);
        FieldsHead(rs);
        StreamRune(rs, false, false);
      }
    }
  }

  // ----- the code -----------------------------------------------------------------------------

  lemma RunesStep(s: string)
    requires s != ""
    ensures Runes(s) == [Rune(s[..DecodeRune(s).1], IsSpace(DecodeRune(s).0))] + Runes(s[DecodeRune(s).1..])
    ensures Runes(s)[1..] == Runes(s[DecodeRune(s).1..])
  {
  }

  lemma CutFull(a: string, b: string)
    requires |a| == KEY_LEN
    ensures Cut(a + b) == a
  {
    assert (a + b)[..KEY_LEN] == a;
  }

  /** Copying as much of `src` as fits behind `head` does not change what the key will be. */
  lemma CutCopy(head: string, src: string, tail: string, m: nat)
    requires |head| <= KEY_LEN
    requires m == if |src| <= KEY_LEN - |head| then |src| else KEY_LEN - |head|
    ensures Cut(head + (src + tail)) == Cut((head + src[..m]) + tail)
  {
    if m == |src| {
      assert src[..m] == src;
      Assoc(head, src, tail);
    } else {
      CutFull(head + src[..m], tail);
      assert head + (src + tail) == (head + src[..m]) + (src[m..] + tail);
      CutFull(head + src[..m], src[m..] + tail);
    }
  }

  /** The buffer holds all of the key that the runes before `i` determine. */
  ghost predicate Filled(query: string, out: string, i: nat, pending: bool) {
    i <= |query| && |out| <= KEY_LEN && (pending ==> out != "") &&
    Key(query) == Cut(out + Stream(Runes(query[i..]), pending, out != ""))
  }

  /** The rune at offset `i` and its width. */
  ghost predicate RuneAt(query: string, i: nat, r: int, size: nat) {
    i < |query| && (r, size) == DecodeRune(query[i..])
  }

  lemma FilledSpace(query: string, out: string, i: nat, pending: bool, r: int, size: nat, pending': bool)
    requires Filled(query, out, i, pending) && RuneAt(query, i, r, size) && IsSpace(r)
    requires pending' == (out != "")
    ensures Filled(query, out, i + size, pending')
  {
    RunesStep(query[i..]);
    assert query[i..][size..] == query[i + size..];
  }

  lemma FilledWord(query: string, out: string, i: nat, pending: bool, r: int, size: nat, m: nat)
    requires Filled(query, out, i, pending) && |out| < KEY_LEN
    requires RuneAt(query, i, r, size) && !IsSpace(r)
    requires var head := out + if pending then " " else "";
             m == if size <= KEY_LEN - |head| then size else KEY_LEN - |head|
    ensures Filled(query, (out + if pending then " " else "") + query[i..i + size][..m], i + size, false)
  {
    var rs := Runes(query[i..]);
    var sep := if pending then " " else "";
    var src := query[i..i + size];
    RunesStep(query[i..]);
    assert query[i..][..size] == src && query[i..][size..] == query[i + size..];
    StreamRune(rs, pending, out != "");
    var tail := Stream(rs[1..], false, true);
    Assoc(out, sep, src + tail);
    CutCopy(out + sep, src, tail, m);
  }

  lemma FilledAll(query: string, out: string, i: nat, pending: bool)
    requires Filled(query, out, i, pending) && (i == |query| || |out| == KEY_LEN)
    ensures out == Key(query)
  {
    var tail := Stream(Runes(query[i..]), pending, out != "");
    if |out| == KEY_LEN {
      CutFull(out, tail);
    } else {
      assert query[i..] == "";
      assert out + tail == out;
    }
  }

  lemma FilledNone(query: string)
    ensures Filled(query, "", 0, false)
  {
    StreamIsJoin(Runes(query));
    assert query[0..] == query;
    assert "" + Stream(Runes(query), false, false) == Stream(Runes(query), false, false);
  }

  /** The fixed buffer, filled rune by rune and left as soon as it is full, holds the first 200 bytes of
      the joined fields; a rune or a separator may be what the cut falls on. */
  method UnboundedWriteKey(query: string) returns (key: string)
    ensures key == Key(query)
  {
    var buf := new char[KEY_LEN];
    var n := 0;
    var pendingSpace := false;
    var i := 0;
    FilledNone(query);
    assert buf[..0] == "";
    while i < |query| && n < buf.Length
      invariant 0 <= n <= KEY_LEN && 0 <= i <= |query|
      invariant Filled(query, buf[..n], i, pendingSpace)
      decreases |query| - i
    {
      n, i, pendingSpace := TakeRune(query, buf, n, i, pendingSpace);
    }
    FilledAll(query, buf[..n], i, pendingSpace);
    return buf[..n];
  }

  /** The body of the loop: white space only asks for a separator, anything else is written. */
  method TakeRune(query: string, buf: array<char>, n0: nat, i0: nat, pending0: bool)
    returns (n: nat, i: nat, pendingSpace: bool)
    requires n0 < buf.Length == KEY_LEN && i0 < |query|
    requires Filled(query, buf[..n0], i0, pending0)
    modifies buf
    ensures n <= KEY_LEN && i0 < i <= |query|
    ensures Filled(query, buf[..n], i, pendingSpace)
  {
    var r, size := NextRune(query, i0);
    i := i0 + size;
    if IsSpace(r) {
      n := n0;
      pendingSpace := PassSpace(query, buf, n, i0, pending0, r, size);
    } else {
      n := PutWord(query, buf, n0, i0, pending0, r, size);
      pendingSpace := false;
    }
  }

  /** A white-space rune asks for a separator once something has been written. */
  method PassSpace(query: string, buf: array<char>, n: nat, i: nat, pending: bool, ghost r: int, ghost size: nat)
    returns (pendingSpace: bool)
    requires n <= buf.Length && Filled(query, buf[..n], i, pending)
    requires RuneAt(query, i, r, size) && IsSpace(r)
    ensures Filled(query, buf[..n], i + size, pendingSpace)
  {
    pendingSpace := n > 0;
    FilledSpace(query, buf[..n], i, pending, r, size, pendingSpace);
  }

  /** Any other rune is written, behind the separator if one is asked for. */
  method PutWord(query: string, buf: array<char>, n0: nat, i: nat, pendingSpace: bool, ghost r: int, size: nat)
    returns (n: nat)
    requires n0 < buf.Length == KEY_LEN && Filled(query, buf[..n0], i, pendingSpace)
    requires RuneAt(query, i, r, size) && !IsSpace(r)
    modifies buf
    ensures n <= KEY_LEN && Filled(query, buf[..n], i + size, false)
  {
    ghost var before := buf[..n0];
    var m;
    n, m := PutRune(buf, n0, pendingSpace, query[i..i + size]);
    FilledWord(query, before, i, pendingSpace, r, size, m);
  }

  /** The rune at `i`; single bytes below 0x80 need no decoder. */
  method NextRune(query: string, i: nat) returns (r: int, size: nat)
    requires i < |query|
    ensures RuneAt(query, i, r, size) && 1 <= size <= |query| - i
  {
    r, size := query[i] as int, 1;
    if r >= 0x80 {
      var d := DecodeRune(query[i..]);
      r, size := d.0, d.1;
    }
  }

  /** Writes the pending separator, then as much of the rune as still fits, which may be nothing. */
  method PutRune(buf: array<char>, n0: nat, pendingSpace: bool, src: string) returns (n: nat, m: nat)
    requires n0 < buf.Length
    modifies buf
    ensures n == n0 + (if pendingSpace then 1 else 0) + m <= buf.Length
    ensures m == (if |src| <= buf.Length - (n - m) then |src| else buf.Length - (n - m))
    ensures buf[..n] == old(buf[..n0]) + (if pendingSpace then " " else "") + src[..m]
  {
    n := n0;
    if pendingSpace {
      buf[n] := ' ';
      n := n + 1;
      if n == buf.Length {
        return n, 0;
      }
    }
    m := CopyInto(buf, n, src);
    n := n + m;
  }

  /** Go's copy into the buffer from offset `n`: as many bytes as fit. */
  method CopyInto(buf: array<char>, n: nat, src: string) returns (m: nat)
    requires n <= buf.Length
    modifies buf
    ensures m == (if |src| <= buf.Length - n then |src| else buf.Length - n)
    ensures buf[..n + m] == old(buf[..n]) + src[..m]
  {
    m := if |src| <= buf.Length - n then |src| else buf.Length - n;
    for k := 0 to m
      invariant buf[..n + k] == old(buf[..n]) + src[..k]
    {
      buf[n + k] := src[k];
      assert buf[..n + k + 1] == buf[..n + k] + [src[k]];
    }
  }
}
