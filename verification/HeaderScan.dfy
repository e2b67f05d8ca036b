/**
 * The search for the end of the HTTP header in what was read so far (navit/file.c): a blank line,
 * after a line feed or after a carriage return and a line feed (section 6 and Appendix B of RFC 1945).
 */
module HeaderScan {
  import opened Wrappers

  type Byte = x: int | 0 <= x < 256 witness 0

  const LF: Byte := 10
  const CR: Byte := 13

  /** The length of a blank line that starts at i, or 0 */
  function BlankAt(s: seq<Byte>, i: nat): (n: nat)
    ensures n > 0 ==> i + n <= |s|
  {
    if i + 2 <= |s| && s[i..i + 2] == [LF, LF] then 2
    else if i + 4 <= |s| && s[i..i + 4] == [CR, LF, CR, LF] then 4
    else 0
  }

  /** e is the end of the first blank line. */
  ghost predicate FirstEnd(s: seq<Byte>, e: nat) {
    exists i: nat :: BlankAt(s, i) > 0 && e == i + BlankAt(s, i) && forall j: nat :: j < i ==> BlankAt(s, j) == 0
  }

  ghost predicate NoEnd(s: seq<Byte>) {
    forall i: nat :: BlankAt(s, i) == 0
  }

  lemma LineFeeds(s: seq<Byte>, i: nat)
    requires i + 2 <= |s|
    ensures BlankAt(s, i) == 2 <==> s[i] == LF && s[i + 1] == LF
  {
    var w := s[i..i + 2];
    assert w[0] == s[i] && w[1] == s[i + 1];
  }

  lemma ReturnsAndLineFeeds(s: seq<Byte>, i: nat)
    requires i + 4 <= |s|
    ensures BlankAt(s, i) == 4 <==> s[i] == CR && s[i + 1] == LF && s[i + 2] == CR && s[i + 3] == LF
  {
    var w := s[i..i + 4];
    assert w[0] == s[i] && w[1] == s[i + 1] && w[2] == s[i + 2] && w[3] == s[i + 3];
    LineFeeds(s, i);
  }

  /** What starts a blank line, in bytes */
  lemma BlankStarts(s: seq<Byte>, i: nat)
    ensures BlankAt(s, i) > 0 ==> i + 1 < |s| && s[i + 1] == LF && (s[i] == LF || s[i] == CR)
    ensures BlankAt(s, i) == 0 || BlankAt(s, i) == 2 || BlankAt(s, i) == 4
  {
    if i + 2 <= |s| {
      LineFeeds(s, i);
    }
    if i + 4 <= |s| {
      ReturnsAndLineFeeds(s, i);
    }
  }

  /**
   * file_http_header_end. Although it steps by two bytes where it can, it finds the first blank line,
   * and nothing exactly if there is none.
   */
  method HeaderEnd(str: seq<Byte>) returns (end: Option<nat>)
    ensures match end case Some(e) => FirstEnd(str, e) case None => NoEnd(str)
  {
    var i: int, len := 0, |str|;
    while i + 1 < len
      invariant 0 <= i && forall j: nat :: j < i ==> BlankAt(str, j) == 0
      decreases len - i
    {
      Bytes(str, i);
      if str[i + 1] == LF {
        if str[i] == LF {
          return Some(i + 2);
        } else if str[i] == CR && i + 3 < len && str[i + 2] == CR && str[i + 3] == LF {
          return Some(i + 4);
        }
        i := i - 1;
      } else if str[i + 1] == CR {
        if i + 4 < len && str[i + 2] == LF && str[i + 3] == CR && str[i + 4] == LF {
          return Some(i + 5);
        }
        i := i - 1;
      }
      i := i + 2;
    }
    end := None;
    forall j: nat
      ensures BlankAt(str, j) == 0
    {
      BlankStarts(str, j);
    }
  }

  /** What the bytes at i and behind say about blank lines there */
  lemma Bytes(s: seq<Byte>, i: nat)
    requires i + 1 < |s|
    ensures BlankAt(s, i) == 2 <==> s[i] == LF && s[i + 1] == LF
    ensures BlankAt(s, i) == 4 <==> i + 3 < |s| && s[i] == CR && s[i + 1] == LF && s[i + 2] == CR && s[i + 3] == LF
    ensures BlankAt(s, i + 1) == 4 <==>
      i + 4 < |s| && s[i + 1] == CR && s[i + 2] == LF && s[i + 3] == CR && s[i + 4] == LF
    ensures BlankAt(s, i) in {0, 2, 4} && (BlankAt(s, i + 1) > 0 ==> s[i + 1] == LF || s[i + 1] == CR)
  {
    BlankStarts(s, i);
    BlankStarts(s, i + 1);
    LineFeeds(s, i);
    if i + 4 <= |s| {
      ReturnsAndLineFeeds(s, i);
    }
    if i + 5 <= |s| {
      ReturnsAndLineFeeds(s, i + 1);
    }
  }

  lemma BlankInLonger(s: seq<Byte>, more: seq<Byte>, i: nat)
    ensures BlankAt(s, i) > 0 ==> BlankAt(s + more, i) == BlankAt(s, i)
    ensures BlankAt(s + more, i) > 0 && i + BlankAt(s + more, i) <= |s| ==> BlankAt(s, i) == BlankAt(s + more, i)
  {
    var t := s + more;
    assert i + 2 <= |s| ==> t[i..i + 2] == s[i..i + 2];
    assert i + 4 <= |s| ==> t[i..i + 4] == s[i..i + 4];
    if i + 4 <= |t| && i + 2 <= |s| && t[i..i + 4] == [CR, LF, CR, LF] {
      assert t[i] == t[i..i + 4][0];
      LineFeeds(t, i);
    }
  }

  /** An end that was found stays the end when more is read. */
  lemma EndIsStable(s: seq<Byte>, more: seq<Byte>, e: nat)
    requires FirstEnd(s, e)
    ensures FirstEnd(s + more, e)
  {
    var t := s + more;
    var i: nat :| BlankAt(s, i) > 0 && e == i + BlankAt(s, i) && forall j: nat :: j < i ==> BlankAt(s, j) == 0;
    BlankInLonger(s, more, i);
    forall j: nat | j < i
      ensures BlankAt(t, j) == 0
    {
      BlankInLonger(s, more, j);
      BlankStarts(t, j);
      BlankStarts(t, i);
      if BlankAt(t, j) == 4 {
        ReturnsAndLineFeeds(t, j);
      }
    }
  }

  lemma EndIsUnique(s: seq<Byte>, e: nat, f: nat)
    requires FirstEnd(s, e) && FirstEnd(s, f)
    ensures e == f
  {
    var i: nat :| BlankAt(s, i) > 0 && e == i + BlankAt(s, i) && forall j: nat :: j < i ==> BlankAt(s, j) == 0;
    var k: nat :| BlankAt(s, k) > 0 && f == k + BlankAt(s, k) && forall j: nat :: j < k ==> BlankAt(s, j) == 0;
  }

  function Concat(chunks: seq<seq<Byte>>): seq<Byte> {
    if chunks == [] then [] else Concat(chunks[..|chunks| - 1]) + chunks[|chunks| - 1]
  }

  lemma {:induction false} ConcatFrom(chunks: seq<seq<Byte>>, k: nat) returns (rest: seq<Byte>)
    requires k <= |chunks|
    ensures Concat(chunks) == Concat(chunks[..k]) + rest
    decreases |chunks|
  {
    if k == |chunks| {
      assert chunks[..k] == chunks;
      rest := [];
    } else {
      var init := chunks[..|chunks| - 1];
      var r := ConcatFrom(init, k);
      assert init[..k] == chunks[..k];
      rest := r + chunks[|chunks| - 1];
    }
  }

  /** Scanning again after each chunk that was read finds the boundary that scanning everything would find. */
  method ReadHeader(chunks: seq<seq<Byte>>) returns (end: Option<nat>, used: nat)
    ensures used <= |chunks|
    ensures match end
      case Some(e) => e <= |Concat(chunks[..used])| && FirstEnd(Concat(chunks), e)
      case None => NoEnd(Concat(chunks))
  {
    var buffer: seq<Byte> := [];
    used := 0;
    end := HeaderEnd(buffer);
    assert chunks[..0] == [];
    while used < |chunks| && end.None?
      invariant used <= |chunks| && buffer == Concat(chunks[..used])
      invariant match end case Some(e) => FirstEnd(buffer, e) case None => NoEnd(buffer)
    {
      assert chunks[..used + 1][..used] == chunks[..used];
      buffer := buffer + chunks[used];
      used := used + 1;
      end := HeaderEnd(buffer);
    }
    if end.Some? {
      var rest := ConcatFrom(chunks, used);
      EndIsStable(buffer, rest, end.value);
    } else {
      assert chunks[..used] == chunks;
    }
  }
}
