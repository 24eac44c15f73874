/** The printer and its growing buffer (src/cJSON/cJSON.c, lines 448 to 628, 917 to 1042,
    1202 to 1253, 1381 to 1453, 1554 to 1613 and 1729 to 1840). Text is written at the offset;
    some of it is only counted afterwards, by the length of the C string found there. */
module JsonPrinter {
  import opened Bytes
  import opened JsonText
  import opened JsonList
  import opened JsonStrings

  /** A sequence with `s` written over it at `pos`. */
  function Spliced(b: seq<byte>, pos: nat, s: seq<byte>): (r: seq<byte>)
    requires pos + |s| <= |b|
    ensures |r| == |b|
  {
    b[..pos] + s + b[pos + |s|..]
  }

  /** The C string of a text that ends in a NUL of its own. */
  lemma {:induction false} CStringOf(s: seq<byte>, more: seq<byte>)
    requires NoNul(s)
    ensures CString(s + [0] + more) == s
    decreases |s|
  {
    var t := s + [0] + more;
    if s != [] {
      assert t[0] == s[0] && t[1..] == s[1..] + [0] + more;
      CStringOf(s[1..], more);
    }
  }

  /** The reserved length that `needed` more bytes behind `offset` lead to, if any. */
  lemma CStringStep(b: seq<byte>, k: nat)
    requires k < |b|
    ensures b[k] == 0 ==> b[..k] + CString(b[k..]) == b[..k]
    ensures b[k] != 0 ==> b[..k] + CString(b[k..]) == b[..k + 1] + CString(b[k + 1..])
    ensures b[k] != 0 && 0 in b[k..] ==> 0 in b[k + 1..]
  {
    assert b[k..] == [b[k]] + b[k + 1..];
    if b[k] != 0 {
      Assoc(b[..k], [b[k]], CString(b[k + 1..]));
      assert b[..k + 1] == b[..k] + [b[k]];
    } else {
      assert b[..k] + [] == b[..k];
    }
  }

  function NewSize(offset: nat, needed: nat): Option<nat> {
    var all := needed + offset + 1;
    if all > INT_MAX / 2 then (if all <= INT_MAX then Some(INT_MAX) else None) else Some(all * 2)
  }

  lemma {:induction false} EscapeSnoc(s: seq<byte>, b: byte)
    ensures Escape(s + [b]) == Escape(s) + EscapeByte(b)
    decreases |s|
  {
    hide EscapeByte;
    if s == [] {
      assert [] + [b] == [b] && [b][1..] == [];
      assert EscapeByte(b) + [] == EscapeByte(b);
    } else {
      assert (s + [b])[1..] == s[1..] + [b];
      EscapeSnoc(s[1..], b);
      Assoc(EscapeByte(s[0]), Escape(s[1..]), EscapeByte(b));
    }
  }

  /** Without anything to escape, the text of a string is the string. */
  lemma {:induction false} NothingEscaped(ptrSize: nat, s: seq<byte>)
    requires ptrSize > 0 && |Escape(s)| == |s|
    ensures Escape(s) == s && Printable(ptrSize, s)
    decreases |s|
  {
    if s != [] {
      EscapeLonger(s[1..]);
      NothingEscaped(ptrSize, s[1..]);
    }
  }

  lemma {:induction false} EscapeLonger(s: seq<byte>)
    ensures |Escape(s)| >= |s|
  {
    hide EscapeByte;
    if s != [] {
      EscapeLonger(s[1..]);
    }
  }

  /** What is visible of a string whose first control byte that does not fit is the k-th. */
  lemma {:induction false} VisibleAt(ptrSize: nat, s: seq<byte>, k: nat)
    requires 0 < ptrSize < 6 && k < |s| && Control(s[k]) && Printable(ptrSize, s[..k])
    ensures VisibleEscape(ptrSize, s) == Escape(s[..k]) + FittingControl(ptrSize, s[k])
    decreases k
  {
    hide EscapeByte, FittingControl;
    if k == 0 {
      assert s[..0] == [] && [] + FittingControl(ptrSize, s[0]) == FittingControl(ptrSize, s[0]);
    } else {
      assert s[..k][0] == s[0] && s[1..][..k - 1] == s[..k][1..];
      VisibleAt(ptrSize, s[1..], k - 1);
      Assoc(EscapeByte(s[0]), Escape(s[1..][..k - 1]), FittingControl(ptrSize, s[k]));
    }
  }

  lemma PrintableSnoc(ptrSize: nat, s: seq<byte>, k: nat)
    requires k < |s|
    ensures s[..k + 1] == s[..k] + [s[k]]
    ensures Printable(ptrSize, s[..k + 1]) == (Printable(ptrSize, s[..k]) && (ptrSize >= 6 || !Control(s[k])))
  {
    if Printable(ptrSize, s[..k + 1]) && ptrSize < 6 {
      assert !Control(s[..k + 1][k]);
      forall i | 0 <= i < k ensures !Control(s[..k][i]) {
        assert s[..k][i] == s[..k + 1][i];
      }
    }
  }

  /** The bytes that are written for one byte of a string. */
  function ByteWritten(ptrSize: nat, b: byte): (w: seq<byte>)
    requires ptrSize > 0
    ensures |w| <= |EscapeByte(b)| + 1 && (!Control(b) ==> w == EscapeByte(b))
  {
    if !Control(b) then EscapeByte(b)
    else if ptrSize >= 6 then EscapeByte(b) + [0]
    else FittingControl(ptrSize, b) + [0]
  }

  /** The first `k` bytes of a string have been written from `at` up to `pos`; once one did
      not fit, all that will ever be visible is there. */
  predicate Progress(ptrSize: nat, b: seq<byte>, at: nat, s: seq<byte>, k: nat, pos: nat)
    requires ptrSize > 0 && k <= |s|
  {
    && pos == at + |Escape(s[..k])| <= |b|
    && if Printable(ptrSize, s[..k]) then b[at..pos] == Escape(s[..k])
       else
         var v := VisibleEscape(ptrSize, s);
         at + |v| < pos && b[at..at + |v|] == v && b[at + |v|] == 0
  }

  lemma ProgressStep(ptrSize: nat, b: seq<byte>, at: nat, s: seq<byte>, k: nat, pos: nat)
    requires ptrSize > 0 && k < |s| && Progress(ptrSize, b, at, s, k, pos)
    requires pos + |EscapeByte(s[k])| < |b|
    ensures Progress(ptrSize, Spliced(b, pos, ByteWritten(ptrSize, s[k])), at, s, k + 1, pos + |EscapeByte(s[k])|)
  {
    hide EscapeByte, VisibleEscape, Escape, Printable, FittingControl;
    var w, e := ByteWritten(ptrSize, s[k]), EscapeByte(s[k]);
    var b', pos' := Spliced(b, pos, w), pos + |e|;
    PrintableSnoc(ptrSize, s, k);
    EscapeSnoc(s[..k], s[k]);
    if !Printable(ptrSize, s[..k]) {
      var v := VisibleEscape(ptrSize, s);
      assert b'[at..at + |v|] == b[at..at + |v|] && b'[at + |v|] == b[at + |v|];
    } else if Control(s[k]) && ptrSize < 6 {
      var f := FittingControl(ptrSize, s[k]);
      FittingShort(ptrSize, s[k]);
      VisibleAt(ptrSize, s, k);
      assert b'[at..pos + |f|] == b[at..pos] + f;
      assert b'[pos + |f|] == 0;
    } else {
      assert b'[at..pos'] == b[at..pos] + e;
    }
  }

  lemma FittingShort(ptrSize: nat, b: byte)
    requires 0 < ptrSize < 6 && Control(b)
    ensures |FittingControl(ptrSize, b)| < |EscapeByte(b)|
  {
  }

  lemma {:induction false} VisibleNoNul(ptrSize: nat, s: seq<byte>)
    requires ptrSize > 0 && NoNul(s)
    ensures NoNul(VisibleEscape(ptrSize, s)) && NoNul(StringText(ptrSize, s))
    decreases |s|
  {
    if s != [] {
      VisibleNoNul(ptrSize, s[1..]);
    }
  }

  lemma Enclosing(r: seq<byte>, i: nat, j: nat)
    requires i < j < |r|
    ensures r[i..j + 1] == [r[i]] + r[i + 1..j] + [r[j]]
  {
  }

  /** A literal that has been written whole, or as far as it is visible. */
  lemma StringWritten(ptrSize: nat, b: seq<byte>, offset: nat, s: seq<byte>)
    requires ptrSize > 0 && NoNul(s) && offset + 1 + |Escape(s)| + 2 <= |b| && b[offset] == QUOTE
    requires Progress(ptrSize, b, offset + 1, s, |s|, offset + 1 + |Escape(s)|)
    ensures var r := Spliced(b, offset + 1 + |Escape(s)|, [QUOTE, 0]);
      var t := StringText(ptrSize, s);
      && offset + |t| < |b| && r[..offset] == b[..offset] && r[offset..offset + |t|] == t && r[offset + |t|] == 0
      && NoNul(t)
  {
    hide EscapeByte, VisibleEscape, Escape, FittingControl;
    VisibleNoNul(ptrSize, s);
    assert s[..|s|] == s;
    var pos, v := offset + 1 + |Escape(s)|, VisibleEscape(ptrSize, s);
    var r := Spliced(b, pos, [QUOTE, 0]);
    if Printable(ptrSize, s) {
      AllVisible(ptrSize, s);
      assert b[offset + 1..pos] == Escape(s) == v;
      assert r[offset + 1..pos] == b[offset + 1..pos] && r[offset] == r[pos] == QUOTE;
      Enclosing(r, offset, pos);
    } else {
      assert r[offset..offset + 1 + |v|] == [QUOTE] + r[offset + 1..offset + 1 + |v|];
      assert r[offset + 1..offset + 1 + |v|] == b[offset + 1..offset + 1 + |v|];
      assert [QUOTE] + v + [] == [QUOTE] + v;
    }
  }

  function ByteLength(b: byte): (n: nat)
    ensures n == |EscapeByte(b)|
  {
    if ShortEscape(b).Some? then 2 else if b < 32 then 6 else 1
  }

  lemma EscapePrefix(s: seq<byte>, k: nat)
    requires k < |s|
    ensures |Escape(s[..k])| + |EscapeByte(s[k])| <= |Escape(s)|
    decreases |s|
  {
    hide EscapeByte;
    if k > 0 {
      assert s[..k][0] == s[0] && s[..k][1..] == s[1..][..k - 1];
      EscapePrefix(s[1..], k - 1);
    } else {
      assert s[..0] == [];
    }
  }

  lemma ProgressAt(ptrSize: nat, b: seq<byte>, at: nat, s: seq<byte>, k: nat, pos: nat)
    requires ptrSize > 0 && k <= |s| && Progress(ptrSize, b, at, s, k, pos)
    ensures pos == at + |Escape(s[..k])| <= |b|
  {
  }

  lemma WrittenNone(ptrSize: nat, b: seq<byte>, at: nat, s: seq<byte>)
    requires ptrSize > 0 && at <= |b|
    ensures Progress(ptrSize, b, at, s, 0, at)
  {
    assert s[..0] == [] && b[at..at] == [];
  }

  lemma SplicedBefore(b: seq<byte>, pos: nat, w: seq<byte>, m: nat)
    requires pos + |w| <= |b| && m <= pos
    ensures Spliced(b, pos, w)[..m] == b[..m]
  {
  }

  lemma PlainText(ptrSize: nat, s: seq<byte>)
    requires ptrSize > 0 && Printable(ptrSize, s) && VisibleEscape(ptrSize, s) == s
    ensures StringText(ptrSize, s) + [0] == [QUOTE] + s + [QUOTE] + [0]
    ensures |StringText(ptrSize, s)| == |s| + 2
  {
  }

  class PrintBuffer {
    var buffer: array<byte>
    var offset: nat
    var depth: nat
    const noalloc: bool
    const style: Style

    ghost predicate Valid()
      reads this`buffer, this`offset, buffer
    {
      offset < buffer.Length && style.ptrSize > 0
    }

    /** The text written and counted so far. */
    ghost function Written(): seq<byte>
      requires Valid()
      reads this`buffer, this`offset, buffer
    {
      buffer[..offset]
    }

    /** Together with the C string at the offset. */
    ghost function Visible(): seq<byte>
      requires Valid()
      reads this`buffer, this`offset, buffer
    {
      Written() + CString(buffer[offset..])
    }

    ghost predicate Ends()
      requires Valid()
      reads this`buffer, this`offset, buffer
    {
      0 in buffer[offset..]
    }

    constructor (size: nat, style: Style, noalloc: bool)
      requires size > 0 && style.ptrSize > 0
      ensures Valid() && fresh(buffer) && Written() == [] && depth == 0
      ensures this.style == style && this.noalloc == noalloc
    {
      buffer := new byte[size];
      offset, depth := 0, 0;
      this.style, this.noalloc := style, noalloc;
    }

    /** Makes room for `needed` more bytes; what has been written is kept, wherever it moves. */
    method Ensure(needed: nat) returns (ok: bool)
      requires Valid()
      modifies this`buffer
      ensures Valid() && Written() == old(Written()) && (buffer == old(buffer) || fresh(buffer))
      ensures ok ==> offset + needed < buffer.Length
      ensures ok == (needed <= INT_MAX && (offset + needed < old(buffer.Length) || (!noalloc && offset + needed < INT_MAX)))
    {
      if needed > INT_MAX {
        return false;
      }
      if needed + offset + 1 <= buffer.Length {
        return true;
      }
      if noalloc {
        return false;
      }
      var size := NewSize(offset, needed);
      if size.None? {
        return false;
      }
      var newBuffer := new byte[size.value];
      for i := 0 to offset + 1
        invariant newBuffer[..i] == buffer[..i]
        modifies newBuffer
      {
        newBuffer[i] := buffer[i];
      }
      assert newBuffer[..offset] == newBuffer[..offset + 1][..offset];
      buffer := newBuffer;
      ok := true;
    }

    /** Writes bytes at a position. */
    method Poke(pos: nat, s: seq<byte>)
      requires pos + |s| <= buffer.Length
      modifies buffer
      ensures buffer[..] == Spliced(old(buffer[..]), pos, s)
    {
      for i := 0 to |s|
        invariant buffer[..] == Spliced(old(buffer[..]), pos, s[..i])
      {
        buffer[pos + i] := s[i];
        assert s[..i + 1] == s[..i] + [s[i]];
      }
      assert s[..|s|] == s;
    }

    lemma PokedWritten(b: seq<byte>, s: seq<byte>, tail: seq<byte>)
      requires Valid() && offset + |s| + |tail| < buffer.Length && |b| == buffer.Length
      requires buffer[..] == Spliced(b, offset, s + tail)
      ensures buffer[..offset] == b[..offset] && buffer[..offset + |s|] == b[..offset] + s
      ensures buffer[offset + |s|..] == tail + b[offset + |s| + |tail|..]
    {
      var r := Spliced(b, offset, s + tail);
      assert r[..offset] == b[..offset];
      assert r[..offset + |s|] == b[..offset] + s;
      assert r[offset + |s|..] == tail + b[offset + |s| + |tail|..];
    }

    /** Writes bytes at the offset and counts them; `tail` is written behind them. */
    method Emit(s: seq<byte>, tail: seq<byte>, needed: nat) returns (ok: bool)
      requires Valid() && |s| + |tail| <= needed
      modifies this`buffer, this`offset, buffer
      ensures buffer == old(buffer) || fresh(buffer)
      ensures ok ==> Valid() && Written() == old(Written()) + s && (tail == [0] ==> Ends() && Visible() == Written())
      ensures !noalloc && old(offset) + needed < INT_MAX ==> ok
    {
      hide Visible, Ends, CString;
      ok := Ensure(needed);
      if ok {
        ghost var b := buffer[..];
        assert b[..offset] == Written();
        Poke(offset, s + tail);
        PokedWritten(b, s, tail);
        offset := offset + |s|;
        if tail == [0] {
          assert buffer[offset..][0] == 0;
          EndsHere();
        }
      }
    }

    lemma EndsHere()
      requires Valid() && buffer[offset] == 0
      ensures Ends() && Visible() == Written()
    {
      assert buffer[offset..][0] == 0;
      assert Written() + [] == Written();
    }

    /** Writes a C string at the offset without counting it. */
    method Leave(s: seq<byte>, needed: nat) returns (ok: bool)
      requires Valid() && |s| + 1 <= needed && NoNul(s)
      modifies this`buffer, buffer
      ensures buffer == old(buffer) || fresh(buffer)
      ensures ok ==> Valid() && Ends() && Visible() == old(Written()) + s
      ensures !noalloc && old(offset) + needed < INT_MAX ==> ok
    {
      ok := Ensure(needed);
      if ok {
        ghost var b := buffer[..];
        assert b[..offset] == Written();
        Poke(offset, s + [0]);
        LeftVisible(b, s);
      }
    }

    lemma LeftVisible(b: seq<byte>, s: seq<byte>)
      requires Valid() && NoNul(s) && offset + |s| + 1 < buffer.Length && |b| == buffer.Length
      requires buffer[..] == Spliced(b, offset, s + [0])
      ensures Ends() && Visible() == b[..offset] + s
    {
      var r := Spliced(b, offset, s + [0]);
      var more := b[offset + |s| + 1..];
      assert r[..offset] == b[..offset];
      assert r[offset..] == s + [0] + more;
      CStringOf(s, more);
      assert r[offset..][|s|] == 0;
    }

    /** Counts the C string at the offset. */
    method UpdateOffset()
      requires Valid() && Ends()
      modifies this`offset
      ensures Valid() && Written() == old(Visible())
    {
      hide CString;
      ghost var b := buffer[..];
      while buffer[offset] != 0
        invariant offset < buffer.Length && 0 in b[offset..]
        invariant b[..offset] + CString(b[offset..]) == old(Visible())
        decreases buffer.Length - offset
      {
        CStringStep(b, offset);
        offset := offset + 1;
      }
      CStringStep(b, offset);
    }

    /** A C string in the buffer is what is visible at the offset. */
    lemma VisibleText(t: seq<byte>)
      requires Valid() && NoNul(t) && offset + |t| < buffer.Length
      requires buffer[offset..offset + |t|] == t && buffer[offset + |t|] == 0
      ensures Ends() && Visible() == Written() + t
    {
      var more := buffer[offset + |t| + 1..];
      assert buffer[offset..] == t + [0] + more;
      CStringOf(t, more);
      assert buffer[offset..][|t|] == 0;
    }

    /** How many bytes more than a string itself its text takes. */
    method CountEscapes(s: seq<byte>) returns (n: nat)
      ensures |s| + n == |Escape(s)|
    {
      n := 0;
      for i := 0 to |s|
        invariant i + n == |Escape(s[..i])|
      {
        assert s[..i + 1] == s[..i] + [s[i]];
        EscapeSnoc(s[..i], s[i]);
        if ShortEscape(s[i]).Some? {
          n := n + 1;
        } else if s[i] < 32 {
          n := n + 5;
        }
      }
      assert s[..|s|] == s;
    }

    /** Writes one byte of a string. A control byte goes through a call that cuts its text off
        to the size of a pointer and puts a NUL behind it. */
    method WriteByte(b: byte, pos: nat)
      requires style.ptrSize > 0 && pos + |ByteWritten(style.ptrSize, b)| <= buffer.Length
      modifies buffer
      ensures buffer[..] == Spliced(old(buffer[..]), pos, ByteWritten(style.ptrSize, b))
    {
      if b > 31 && b != QUOTE && b != BACKSLASH {
        Poke(pos, [b]);
      } else if ShortEscape(b).Some? {
        Poke(pos, [BACKSLASH, ShortEscape(b).value]);
      } else {
        var text := EscapeByte(b)[1..] + [0];
        var fitting := if style.ptrSize >= 6 then text else text[..style.ptrSize - 1] + [0];
        assert [BACKSLASH] + fitting == ByteWritten(style.ptrSize, b) by {
          assert text[..5] == EscapeByte(b)[1..];
          assert style.ptrSize < 6 ==> text[..style.ptrSize - 1] == EscapeByte(b)[1..][..style.ptrSize - 1];
        }
        Poke(pos, [BACKSLASH] + fitting);
      }
    }

    /** Writes the contents of a literal. */
    method WriteEscaped(s: seq<byte>)
      requires Valid() && offset + 1 + |Escape(s)| + 2 <= buffer.Length
      modifies buffer
      ensures Progress(style.ptrSize, buffer[..], offset + 1, s, |s|, offset + 1 + |Escape(s)|)
      ensures buffer[..offset + 1] == old(buffer[..offset + 1])
    {
      hide Escape, EscapeByte, ByteWritten, Progress, Spliced;
      var pos: nat := offset + 1;
      WrittenNone(style.ptrSize, buffer[..], offset + 1, s);
      for i := 0 to |s|
        invariant Progress(style.ptrSize, buffer[..], offset + 1, s, i, pos)
        invariant buffer[..offset + 1] == old(buffer[..offset + 1])
      {
        EscapePrefix(s, i);
        ProgressAt(style.ptrSize, buffer[..], offset + 1, s, i, pos);
        ProgressStep(style.ptrSize, buffer[..], offset + 1, s, i, pos);
        ghost var b := buffer[..];
        WriteByte(s[i], pos);
        SplicedBefore(b, pos, ByteWritten(style.ptrSize, s[i]), offset + 1);
        pos := pos + ByteLength(s[i]);
      }
      ProgressAt(style.ptrSize, buffer[..], offset + 1, s, |s|, pos);
      assert s[..|s|] == s;
    }

    /** A string as a literal. */
    method PrintString(s: seq<byte>) returns (ok: bool)
      requires Valid() && NoNul(s)
      modifies this`buffer, buffer
      ensures buffer == old(buffer) || fresh(buffer)
      ensures ok ==> Valid() && Ends() && Visible() == old(Written()) + StringText(style.ptrSize, s)
      ensures !noalloc && offset + |Escape(s)| + 3 < INT_MAX ==> ok
    {
      hide Escape, StringText, Progress, Printable, Spliced;
      var n := CountEscapes(s);
      var length := |s| + n;
      ok := Ensure(length + 3);
      if !ok {
        return;
      }
      if n == 0 {
        NothingEscaped(style.ptrSize, s);
        AllVisible(style.ptrSize, s);
        PlainText(style.ptrSize, s);
        ghost var b := buffer[..];
        Poke(offset, [QUOTE] + s + [QUOTE] + [0]);
        VisibleNoNul(style.ptrSize, s);
        LeftVisible(b, StringText(style.ptrSize, s));
      } else {
        WriteLiteral(s, length);
      }
    }

    /** A literal in which something is escaped. */
    method WriteLiteral(s: seq<byte>, length: nat)
      requires Valid() && NoNul(s) && length == |Escape(s)| && offset + length + 3 < buffer.Length
      modifies buffer
      ensures Ends() && Visible() == old(Written()) + StringText(style.ptrSize, s)
    {
      hide Escape, StringText, Progress, Printable, Spliced;
      ghost var before := Written();
      buffer[offset] := QUOTE;
      assert buffer[..offset] == before;
      WriteEscaped(s);
      assert buffer[..offset] == buffer[..offset + 1][..offset] == before;
      assert buffer[offset] == buffer[..offset + 1][offset] == QUOTE;
      ghost var b, t := buffer[..], StringText(style.ptrSize, s);
      StringWritten(style.ptrSize, b, offset, s);
      Poke(offset + length + 1, [QUOTE, 0]);
      assert buffer[..][..offset] == b[..offset] == before;
      assert buffer[..][offset..offset + |t|] == buffer[offset..offset + |t|];
      VisibleText(t);
    }

    /** Enough memory, and pointers large enough, for `size` more bytes. */
    ghost predicate Room(size: nat)
      reads this`offset
    {
      !noalloc && style.ptrSize >= 6 && offset + size + 4 < INT_MAX
    }

    /** Prints an item, which stands for `v`. */
    method PrintValue(item: Item, ghost n: Node, ghost v: Json) returns (ok: bool)
      requires Valid() && n.item == item && JsonList.Valid(n) && Denotes(n, v) && Proper(v)
      modifies this`buffer, this`offset, this`depth, buffer
      ensures buffer == old(buffer) || fresh(buffer)
      ensures ok ==> Valid() && Ends() && depth == old(depth)
      ensures ok ==> Visible() == old(Written()) + Text(style, v, depth)
      ensures old(Room(|Text(style, v, depth)|)) ==> ok
      decreases v, 1
    {
      hide NumberText, StringText, ElementsText, MembersText, Visible, CString, Ends;
      match item.kind
      case NullKind => ok := Leave(NULL_TEXT, 5);
      case FalseKind => ok := Leave(FALSE_TEXT, 6);
      case TrueKind => ok := Leave(TRUE_TEXT, 5);
      case NumberKind =>
        var text := NumberText(item.number);
        ok := Emit(text, [0], |text| + 1);
      case StringKind =>
        StringSize(style.ptrSize, v.s);
        ok := PrintString(item.text.value);
      case ArrayKind => ok := PrintArray(item, n, v.items);
      case ObjectKind => ok := PrintObject(item, n, v.members);
      case Invalid => ok := false;
    }

    method PrintArray(item: Item, ghost n: Node, ghost items: Elements) returns (ok: bool)
      requires Valid() && ProperElements(items)
      requires n.item == item && JsonList.Valid(n) && Denotes(n, Array(items))
      modifies this`buffer, this`offset, this`depth, buffer
      ensures buffer == old(buffer) || fresh(buffer)
      ensures ok ==> Valid() && Ends() && depth == old(depth)
      ensures ok ==> Visible() == old(Written()) + Text(style, Array(items), depth)
      ensures old(Room(|Text(style, Array(items), depth)|)) ==> ok
      decreases items, 3
    {
      hide ElementsText, Visible, CString, Ends, JsonList.Valid, Denotes;
      ghost var w, t := Written(), ElementsText(style, items, depth + 1);
      ok := Emit([OPEN_ARRAY], [], 1);
      if !ok {
        return;
      }
      depth := depth + 1;
      ok := PrintElements(item, n, items);
      if !ok {
        return;
      }
      Assoc(w, [OPEN_ARRAY], t);
      Assoc(w, [OPEN_ARRAY] + t, [CLOSE_ARRAY]);
      Assoc([OPEN_ARRAY], t, [CLOSE_ARRAY]);
      ok := Leave([CLOSE_ARRAY], 2);
      depth := depth - 1;
    }

    /** The loop over the elements. */
    method PrintElements(item: Item, ghost n: Node, ghost items: Elements) returns (ok: bool)
      requires Valid() && ProperElements(items)
      requires n.item == item && JsonList.Valid(n) && Denotes(n, Array(items))
      modifies this`buffer, this`offset, this`depth, buffer
      ensures buffer == old(buffer) || fresh(buffer)
      ensures ok ==> Valid() && depth == old(depth)
      ensures ok ==> Written() == old(Written()) + ElementsText(style, items, depth)
      ensures old(Room(|ElementsText(style, items, depth)|)) ==> ok
      decreases items, 2
    {
      hide Text, ElementsText, Visible, CString, Ends, Proper, JsonList.Valid, Denotes, Behind;
      ghost var all := Written() + ElementsText(style, items, depth);
      NextChild(n);
      BehindNone(items);
      var current := item.child;
      ghost var k, rest := 0, items;
      ok := true;
      while current != null
        invariant Valid() && depth == old(depth) && ok && (buffer == old(buffer) || fresh(buffer))
        invariant k <= |n.kids| && current == At(Heads(n.kids), k) && Behind(items, k, rest)
        invariant ProperElements(rest) && (rest == items || rest < items)
        invariant all == Written() + ElementsText(style, rest, depth)
        decreases |n.kids| - k
      {
        ArrayKid(n, items, rest, k);
        ok, current := PrintElement(current, n, k, items, rest);
        if !ok {
          return;
        }
        k, rest := k + 1, rest.rest;
      }
      ArrayKid(n, items, rest, k);
      NothingLeft();
    }

    /** One element, and a comma if another follows. */
    method PrintElement(current: Item, ghost n: Node, ghost k: nat, ghost items: Elements, ghost rest: Elements)
      returns (ok: bool, next: Item?)
      requires Valid() && ProperElements(rest) && rest.Item? && (rest == items || rest < items)
      requires JsonList.Valid(n) && Denotes(n, Array(items)) && Behind(items, k, rest)
      requires k < |n.kids| && current == n.kids[k].item
      modifies this`buffer, this`offset, this`depth, buffer
      ensures buffer == old(buffer) || fresh(buffer)
      ensures ok ==> Valid() && depth == old(depth) && next == At(Heads(n.kids), k + 1)
      ensures ok ==>
        Written() + ElementsText(style, rest.rest, depth) == old(Written() + ElementsText(style, rest, depth))
      ensures old(Room(|ElementsText(style, rest, depth)|)) ==> ok
      decreases items, 1
    {
      hide Text, ElementsText, Visible, CString, Ends, Proper, JsonList.Valid, Denotes, Behind;
      NextChild(n);
      ArrayKid(n, items, rest, k);
      ArrayKid(n, items, rest.rest, k + 1);
      ElementsStep(Written(), rest);
      next := current.next;
      ok := PrintValue(current, n.kids[k], rest.value);
      if !ok {
        return;
      }
      UpdateOffset();
      if next != null {
        ok := Emit(Between(style), [0], |Between(style)| + 1);
      }
    }

    lemma ElementsStep(w: seq<byte>, items: Elements)
      requires style.ptrSize > 0 && items.Item?
      ensures var t := Text(style, items.value, depth);
        w + ElementsText(style, items, depth)
        == if items.rest.Item? then w + t + Between(style) + ElementsText(style, items.rest, depth)
           else w + t + ElementsText(style, items.rest, depth)
    {
      hide Text, Between;
      var t, gap := Text(style, items.value, depth), if items.rest.Item? then Between(style) else [];
      Assoc(t, gap, ElementsText(style, items.rest, depth));
      Assoc(w, t + gap, ElementsText(style, items.rest, depth));
      Assoc(w, t, gap);
      assert w + t + [] == w + t;
    }

    lemma NothingLeft()
      requires style.ptrSize > 0
      ensures ElementsText(style, NoItem, depth) == [] && MembersText(style, NoMember, depth) == []
    {
    }

    method PrintObject(item: Item, ghost n: Node, ghost members: Members) returns (ok: bool)
      requires Valid() && ProperMembers(members)
      requires n.item == item && JsonList.Valid(n) && Denotes(n, Object(members))
      modifies this`buffer, this`offset, this`depth, buffer
      ensures buffer == old(buffer) || fresh(buffer)
      ensures ok ==> Valid() && Ends() && depth == old(depth)
      ensures ok ==> Visible() == old(Written()) + Text(style, Object(members), depth)
      ensures old(Room(|Text(style, Object(members), depth)|)) ==> ok
      decreases members, 3
    {
      hide MembersText, Visible, CString, Ends, CloseObject, OpenObject, JsonList.Valid, Denotes;
      ghost var w, t := Written(), MembersText(style, members, depth + 1);
      ghost var open, close := OpenObject(style), CloseObject(style, depth);
      BracketSizes(style, depth);
      ok := Emit(OpenObject(style), [], if style.format then 3 else 2);
      if !ok {
        return;
      }
      depth := depth + 1;
      ok := PrintMembers(item, n, members);
      if !ok {
        return;
      }
      Assoc(w, open, t);
      Assoc(w, open + t, close);
      Assoc(open, t, close);
      ok := Leave(CloseObject(style, depth - 1), if style.format then depth + 1 else 2);
      depth := depth - 1;
    }

    /** The loop over the members. */
    method PrintMembers(item: Item, ghost n: Node, ghost members: Members) returns (ok: bool)
      requires Valid() && ProperMembers(members) && depth > 0
      requires n.item == item && JsonList.Valid(n) && Denotes(n, Object(members))
      modifies this`buffer, this`offset, this`depth, buffer
      ensures buffer == old(buffer) || fresh(buffer)
      ensures ok ==> Valid() && depth == old(depth)
      ensures ok ==> Written() == old(Written()) + MembersText(style, members, depth)
      ensures old(Room(|MembersText(style, members, depth)|)) ==> ok
      decreases members, 2
    {
      hide Text, MembersText, Visible, CString, Ends, Proper, JsonList.Valid, Denotes, BehindMembers;
      ghost var all := Written() + MembersText(style, members, depth);
      NextChild(n);
      BehindNoMember(members);
      var current := item.child;
      ghost var k, rest := 0, members;
      ok := true;
      while current != null
        invariant Valid() && depth == old(depth) && ok && (buffer == old(buffer) || fresh(buffer))
        invariant k <= |n.kids| && current == At(Heads(n.kids), k) && BehindMembers(members, k, rest)
        invariant ProperMembers(rest) && (rest == members || rest < members)
        invariant all == Written() + MembersText(style, rest, depth)
        decreases |n.kids| - k
      {
        ObjectKid(n, members, rest, k);
        ok, current := PrintNext(current, n, k, members, rest);
        if !ok {
          return;
        }
        k, rest := k + 1, rest.rest;
      }
      ObjectKid(n, members, rest, k);
      NothingLeft();
    }

    /** One member, which may be followed by others. */
    method PrintNext(current: Item, ghost n: Node, ghost k: nat, ghost members: Members, ghost rest: Members)
      returns (ok: bool, next: Item?)
      requires Valid() && ProperMembers(rest) && rest.Member? && (rest == members || rest < members) && depth > 0
      requires JsonList.Valid(n) && Denotes(n, Object(members)) && BehindMembers(members, k, rest)
      requires k < |n.kids| && current == n.kids[k].item
      modifies this`buffer, this`offset, this`depth, buffer
      ensures buffer == old(buffer) || fresh(buffer)
      ensures ok ==> Valid() && depth == old(depth) && next == At(Heads(n.kids), k + 1)
      ensures ok ==>
        Written() + MembersText(style, rest.rest, depth) == old(Written() + MembersText(style, rest, depth))
      ensures old(Room(|MembersText(style, rest, depth)|)) ==> ok
      decreases members, 1
    {
      hide Text, MembersText, Visible, CString, Ends, Proper, JsonList.Valid, Denotes, BehindMembers, MemberText;
      NextChild(n);
      ObjectKid(n, members, rest, k);
      ObjectKid(n, members, rest.rest, k + 1);
      MembersStep(Written(), rest);
      next := current.next;
      ok := PrintMember(current, n.kids[k], rest.name, rest.value, next != null);
    }

    ghost function MemberText(name: seq<byte>, value: Json, more: bool): seq<byte>
      requires style.ptrSize > 0
      reads this`depth
    {
      BeforeName(style, depth) + StringText(style.ptrSize, name) + AfterName(style)
      + Text(style, value, depth) + AfterMember(style, more)
    }

    lemma MembersStep(w: seq<byte>, members: Members)
      requires style.ptrSize > 0 && members.Member?
      ensures w + MembersText(style, members, depth)
           == w + MemberText(members.name, members.value, members.rest.Member?) + MembersText(style, members.rest, depth)
    {
      hide Text, StringText, BeforeName, AfterName, AfterMember;
      var a, b, c := BeforeName(style, depth), StringText(style.ptrSize, members.name), AfterName(style);
      var d, e := Text(style, members.value, depth), AfterMember(style, members.rest.Member?);
      var m := MembersText(style, members.rest, depth);
      Assoc(d, e, m);
      Assoc(c, d + e, m);
      Assoc(b, c + (d + e), m);
      Assoc(a, b + (c + (d + e)), m);
      Assoc(a, b, c + (d + e));
      Assoc(a + b, c, d + e);
      Assoc(a + b + c, d, e);
      Assoc(w, a + b + c + d + e, m);
    }

    method PrintMember(item: Item, ghost n: Node, ghost name: seq<byte>, ghost value: Json, more: bool) returns (ok: bool)
      requires Valid() && NoNul(name) && Proper(value)
      requires n.item == item && JsonList.Valid(n) && Denotes(n, value) && item.name == Some(name)
      modifies this`buffer, this`offset, this`depth, buffer
      ensures buffer == old(buffer) || fresh(buffer)
      ensures ok ==> Valid() && depth == old(depth)
      ensures ok ==> Written() == old(Written()) + old(MemberText(name, value, more))
      ensures old(Room(|MemberText(name, value, more)|)) ==> ok
      decreases value, 2
    {
      hide Text, StringText, Visible, CString, Ends, Proper, BeforeName, AfterName, JsonList.Valid, Denotes;
      ghost var w, a, b, c := Written(), BeforeName(style, depth), StringText(style.ptrSize, name), AfterName(style);
      ghost var d, e := Text(style, value, depth), AfterMember(style, more);
      MemberJoin(w, a, b, c, d, e);
      ok := PrintName(item.name.value);
      if !ok {
        return;
      }
      ok := PrintValue(item, n, value);
      if !ok {
        return;
      }
      UpdateOffset();
      ok := Emit(AfterMember(style, more), [0], |AfterMember(style, more)| + 1);
    }

    /** Tabs, name and colon. */
    method PrintName(name: seq<byte>) returns (ok: bool)
      requires Valid() && NoNul(name)
      modifies this`buffer, this`offset, buffer
      ensures buffer == old(buffer) || fresh(buffer)
      ensures ok ==> Valid()
      ensures ok ==>
        Written() == old(Written()) + BeforeName(style, depth) + StringText(style.ptrSize, name) + AfterName(style)
      ensures old(Room(|BeforeName(style, depth)| + |StringText(style.ptrSize, name)| + |AfterName(style)|)) ==> ok
    {
      hide StringText, Visible, CString, Ends, Escape;
      StringSize(style.ptrSize, name);
      ghost var w := Written();
      assert w + [] == w;
      ok := true;
      if style.format {
        ok := Emit(Tabs(depth), [], depth);
        if !ok {
          return;
        }
      }
      ok := PrintString(name);
      if !ok {
        return;
      }
      UpdateOffset();
      ok := Emit(AfterName(style), [], |AfterName(style)|);
    }
  }

  lemma MemberJoin(w: seq<byte>, a: seq<byte>, b: seq<byte>, c: seq<byte>, d: seq<byte>, e: seq<byte>)
    ensures w + (a + b + c + d + e) == w + a + b + c + d + e
  {
    Assoc(w, a + b + c + d, e);
    Assoc(w, a + b + c, d);
    Assoc(w, a + b, c);
    Assoc(w, a, b);
  }

  lemma StringSize(ptrSize: nat, s: seq<byte>)
    requires ptrSize > 0
    ensures ptrSize >= 6 ==> |StringText(ptrSize, s)| == |Escape(s)| + 2
  {
    if ptrSize >= 6 {
      AllVisible(ptrSize, s);
    }
  }

  lemma BracketSizes(st: Style, depth: nat)
    ensures |OpenObject(st)| == if st.format then 2 else 1
    ensures |CloseObject(st, depth)| == (if st.format then depth else 0) + 1 && NoNul(CloseObject(st, depth))
  {
  }

  /** Prints an item into a buffer that starts with 256 bytes. */
  method Print(item: Item, ghost n: Node, ghost v: Json, style: Style) returns (text: Option<seq<byte>>)
    requires n.item == item && Valid(n) && Denotes(n, v) && Proper(v) && style.ptrSize > 0
    ensures text.Some? ==> text.value == Text(style, v, 0)
    ensures style.ptrSize >= 6 && |Text(style, v, 0)| + 4 < INT_MAX ==> text.Some?
  {
    hide Text, PrintBuffer.Visible, PrintBuffer.Ends, Valid, Denotes;
    var p := new PrintBuffer(256, style, false);
    var ok := p.PrintValue(item, n, v);
    if !ok {
      return None;
    }
    p.UpdateOffset();
    assert [] + Text(style, v, 0) == Text(style, v, 0);
    text := Some(p.buffer[..p.offset]);
  }
}
