/**
 Clipboard payloads: read from a pipe up to a cap, and cut so that text stays valid UTF-8.
 */
module Clipboard {
  import opened Bytes
  import opened Wrappers
  import opened Ascii

  const MAX_CLIPBOARD_DATA: nat := 1024 * 1024
  const READ_CHUNK: nat := 64 * 1024

  predicate IsTextMime(mime: string) {
    var lower := Lower(mime);
    "text/" <= lower || lower == "utf8_string" || lower == "string" || lower == "text"
  }

  /** The text types, in any case: the three names and everything that begins with `text/`. */
  lemma TextMimes(mime: string)
    ensures IsTextMime(mime)
       <==> || Lower(mime) == "utf8_string" || Lower(mime) == "string" || Lower(mime) == "text"
            || (|mime| >= 5 && Lower(mime[..5]) == "text/")
  {
    if |mime| >= 5 {
      assert Lower(mime)[..5] == Lower(mime[..5]);
    }
  }

  // ----- cutting a payload

  /** The top two bits of the byte are `10`. */
  predicate IsContinuation(b: byte) { b / 64 == 2 }

  /** What popping continuation bytes and then one leading byte leaves. */
  function Backoff(d: seq<byte>): seq<byte> {
    if d == [] then d
    else
      var last := d[|d| - 1];
      if IsContinuation(last) then Backoff(d[..|d| - 1])
      else if last >= 0x80 then d[..|d| - 1]
      else d
  }

  function Capped(data: seq<byte>, mime: string): seq<byte> {
    if |data| <= MAX_CLIPBOARD_DATA then data
    else if IsTextMime(mime) then Backoff(data[..MAX_CLIPBOARD_DATA])
    else data[..MAX_CLIPBOARD_DATA]
  }

  class ByteVec {
    var data: seq<byte>

    constructor (d: seq<byte>)
      ensures data == d
    {
      data := d;
    }
  }

  method CapClipboardPayload(v: ByteVec, mime: string) returns (truncated: bool)
    modifies v
    ensures v.data == Capped(old(v.data), mime)
    ensures truncated == (|old(v.data)| > MAX_CLIPBOARD_DATA)
  {
    if |v.data| <= MAX_CLIPBOARD_DATA {
      return false;
    }
    v.data := v.data[..MAX_CLIPBOARD_DATA];
    if IsTextMime(mime) {
      while v.data != []
        invariant Backoff(v.data) == Backoff(old(v.data)[..MAX_CLIPBOARD_DATA])
        decreases |v.data|
      {
        var last := v.data[|v.data| - 1];
        if IsContinuation(last) {
          v.data := v.data[..|v.data| - 1];
        } else {
          if last >= 0x80 {
            v.data := v.data[..|v.data| - 1];
          }
          return true;
        }
      }
    }
    truncated := true;
  }

  // ----- UTF-8, as section 4 of RFC 3629 defines it

  predicate Tail(b: byte) { 0x80 <= b <= 0xBF }

  predicate IsChar(c: seq<byte>) {
    match |c|
    case 1 => c[0] <= 0x7F
    case 2 => 0xC2 <= c[0] <= 0xDF && Tail(c[1])
    case 3 => Tail(c[2]) && (
        || (c[0] == 0xE0 && 0xA0 <= c[1] <= 0xBF)
        || (0xE1 <= c[0] <= 0xEC && Tail(c[1]))
        || (c[0] == 0xED && 0x80 <= c[1] <= 0x9F)
        || (0xEE <= c[0] <= 0xEF && Tail(c[1])))
    case 4 => Tail(c[2]) && Tail(c[3]) && (
        || (c[0] == 0xF0 && 0x90 <= c[1] <= 0xBF)
        || (0xF1 <= c[0] <= 0xF3 && Tail(c[1]))
        || (c[0] == 0xF4 && 0x80 <= c[1] <= 0x8F))
    case _ => false
  }

  function LeadLength(b: byte): (n: nat)
    ensures 1 <= n <= 4
  {
    if b < 0xC0 then 1 else if b < 0xE0 then 2 else if b < 0xF0 then 3 else 4
  }

  predicate ValidUtf8(s: seq<byte>)
    decreases |s|
  {
    s == [] ||
    (LeadLength(s[0]) <= |s| && IsChar(s[..LeadLength(s[0])]) && ValidUtf8(s[LeadLength(s[0])..]))
  }

  lemma {:induction false} ValidConcat(a: seq<byte>, b: seq<byte>)
    requires ValidUtf8(a) && ValidUtf8(b)
    ensures ValidUtf8(a + b)
    decreases |a|
  {
    if a == [] {
      assert a + b == b;
    } else {
      var n := LeadLength(a[0]);
      ValidConcat(a[n..], b);
      assert (a + b)[..n] == a[..n] && (a + b)[n..] == a[n..] + b;
    }
  }

  lemma OneChar(c: seq<byte>)
    requires IsChar(c)
    ensures ValidUtf8(c) && LeadLength(c[0]) == |c|
  {
    assert c[..|c|] == c && c[|c|..] == [];
  }

  lemma SliceAfter(t: seq<byte>, n: nat, i: nat, j: nat)
    requires n <= |t| && i <= j <= |t| - n
    ensures t[n..][i..j] == t[n + i..n + j] && t[..n] + t[n..][..i] == t[..n + i]
  {
  }

  lemma CharLater(t: seq<byte>, first: nat, k: nat, m: nat)
    requires first <= |t| && IsChar(t[..first]) && k + m <= |t| - first
    requires IsChar(t[first..][k..k + m]) && ValidUtf8(t[first..][..k])
    ensures IsChar(t[first + k..first + k + m]) && ValidUtf8(t[..first + k])
  {
    OneChar(t[..first]);
    ValidConcat(t[..first], t[first..][..k]);
    SliceAfter(t, first, k, k + m);
  }

  /** The character of a valid text that byte `i` belongs to starts at `j` and is `n` bytes long;
      the text before it is valid by itself. */
  lemma {:induction false} CharAt(t: seq<byte>, i: nat) returns (j: nat, n: nat)
    requires ValidUtf8(t) && i < |t|
    ensures j <= i < j + n <= |t| && IsChar(t[j..j + n]) && ValidUtf8(t[..j])
    decreases |t|
  {
    var first := LeadLength(t[0]);
    if i < first {
      j, n := 0, first;
    } else {
      var k, m := CharAt(t[first..], i - first);
      j, n := first + k, m;
      CharLater(t, first, k, m);
    }
  }

  lemma {:induction false} BackoffPops(d: seq<byte>, j: nat)
    requires j < |d| && d[j] >= 0xC0 && forall i :: j < i < |d| ==> IsContinuation(d[i])
    ensures Backoff(d) == d[..j]
    decreases |d|
  {
    if j < |d| - 1 {
      BackoffPops(d[..|d| - 1], j);
      assert d[..|d| - 1][..j] == d[..j];
    }
  }

  lemma ShortCharKept(t: seq<byte>, n: nat)
    requires 0 < n <= |t| && IsChar(t[n - 1..n]) && ValidUtf8(t[..n - 1])
    ensures Backoff(t[..n]) == t[..n] && t[n - 1] < 0x80 && ValidUtf8(t[..n])
  {
    var c := t[n - 1..n];
    assert c[0] == t[n - 1];
    OneChar(c);
    ValidConcat(t[..n - 1], c);
    assert t[..n] == t[..n - 1] + c;
  }

  lemma LongCharPopped(t: seq<byte>, n: nat, start: nat, len: nat)
    requires start < n <= start + len <= |t| && len > 1 && IsChar(t[start..start + len])
    ensures Backoff(t[..n]) == t[..start] && t[n - 1] >= 0x80 && n - 4 <= start
  {
    var c := t[start..start + len];
    assert c[0] == t[start];
    forall i | start < i < n ensures IsContinuation(t[i]) {
      assert t[i] == c[i - start];
    }
    BackoffPops(t[..n], start);
    assert t[..n][..start] == t[..start];
  }

  /** Cutting valid text anywhere and backing off: nothing more is cut if the last byte left is an
      ASCII character, and otherwise exactly the character that byte belongs to, whole or not. */
  lemma BackoffCuts(t: seq<byte>, n: nat) returns (j: nat)
    requires ValidUtf8(t) && 0 < n <= |t|
    ensures n - 4 <= j <= n && Backoff(t[..n]) == t[..j] && ValidUtf8(t[..j])
    ensures t[n - 1] < 0x80 <==> j == n
  {
    var start, len := CharAt(t, n - 1);
    if len == 1 {
      j := n;
      ShortCharKept(t, n);
    } else {
      j := start;
      LongCharPopped(t, n, start, len);
    }
  }

  lemma {:induction false} BackoffShortens(d: seq<byte>)
    ensures |Backoff(d)| <= |d|
  {
    if d != [] { BackoffShortens(d[..|d| - 1]); }
  }

  /** A payload is left whole exactly if it has at most 1 MiB. */
  lemma CappedWholeIff(data: seq<byte>, mime: string)
    ensures Capped(data, mime) == data <==> |data| <= 1048576
    ensures |Capped(data, mime)| <= 1048576
  {
    if |data| > 1048576 { BackoffShortens(data[..1048576]); }
  }

  /** A payload above the cap that is the beginning of valid text is cut to valid text, the beginning
      of the same text, at most four bytes below the cap; all bytes up to the cap are kept exactly
      when the last of them is ASCII. */
  lemma CappedTextValid(text: seq<byte>, data: seq<byte>, mime: string)
    requires ValidUtf8(text) && data <= text && IsTextMime(mime)
    requires |data| > MAX_CLIPBOARD_DATA
    ensures var r := Capped(data, mime);
            && ValidUtf8(r) && r <= text
            && MAX_CLIPBOARD_DATA - 4 <= |r| <= MAX_CLIPBOARD_DATA
            && (|r| == MAX_CLIPBOARD_DATA <==> text[MAX_CLIPBOARD_DATA - 1] < 0x80)
  {
    assert data[..MAX_CLIPBOARD_DATA] == text[..MAX_CLIPBOARD_DATA];
    var j := BackoffCuts(text, MAX_CLIPBOARD_DATA);
  }

  lemma {:induction false} RepeatedValid(n: nat, s: seq<byte>)
    requires |s| == n && forall i :: 0 <= i < n ==> s[i] < 0x80
    ensures ValidUtf8(s)
  {
    if n > 0 {
      RepeatedValid(n - 1, s[1..]);
    }
  }

  /** The cut is not always as late as it could be: a last character that fits whole is dropped. */
  lemma LastWholeCharDropped(head: seq<byte>, mime: string)
    requires |head| == MAX_CLIPBOARD_DATA - 2 && (forall i :: 0 <= i < |head| ==> head[i] < 0x80) && IsTextMime(mime)
    ensures ValidUtf8(head + [0xC3, 0xA9]) && |head + [0xC3, 0xA9]| == MAX_CLIPBOARD_DATA
    ensures Capped(head + [0xC3, 0xA9] + [0x21], mime) == head
  {
    RepeatedValid(|head|, head);
    var c: seq<byte> := [0xC3, 0xA9];
    OneChar(c);
    ValidConcat(head, c);
    var data: seq<byte> := head + c + [0x21];
    assert data[..MAX_CLIPBOARD_DATA] == head + c;
    BackoffPops(head + c, |head|);
    assert (head + c)[..|head|] == head;
  }

  // ----- reading the selection

  /** What one read of the pipe returns: bytes (none at the end of the pipe), an interruption, or an
      error. A list of these stands for the pipe; past its end the pipe is at its end. */
  datatype Read = Got(bytes: seq<byte>) | Interrupted | Broken

  datatype Selection = Lost | Nothing | Forwarded(data: seq<byte>, truncated: bool)

  ghost predicate Bounded(script: seq<Read>) {
    forall i :: 0 <= i < |script| ==> script[i].Got? ==> |script[i].bytes| <= READ_CHUNK
  }

  /** The bytes collected by the read loop, or nothing if the pipe breaks first. */
  function Collected(script: seq<Read>, got: seq<byte>): Option<seq<byte>>
    decreases |script|
  {
    if |got| > MAX_CLIPBOARD_DATA || script == [] then Some(got)
    else match script[0]
      case Got(bytes) => if bytes == [] then Some(got) else Collected(script[1..], got + bytes)
      case Interrupted => Collected(script[1..], got)
      case Broken => None
  }

  function SelectionOf(collected: Option<seq<byte>>, mime: string): Selection {
    match collected
    case None => Lost
    case Some(data) =>
      if data == [] then Nothing else Forwarded(Capped(data, mime), |data| > MAX_CLIPBOARD_DATA)
  }

  method ReadSelection(script: seq<Read>, mime: string) returns (r: Selection)
    ensures r == SelectionOf(Collected(script, []), mime)
  {
    var data: seq<byte> := [];
    var i := 0;
    while |data| <= MAX_CLIPBOARD_DATA && i < |script|
      invariant 0 <= i <= |script|
      invariant Collected(script, []) == Collected(script[i..], data)
    {
      assert script[i..][0] == script[i] && script[i..][1..] == script[i + 1..];
      if script[i].Broken? {
        return Lost;
      }
      if script[i].Got? {
        if script[i].bytes == [] {
          break;
        }
        data := data + script[i].bytes;
      }
      i := i + 1;
    }
    assert Collected(script, []) == Some(data);
    if data == [] {
      return Nothing;
    }
    var v := new ByteVec(data);
    var truncated := CapClipboardPayload(v, mime);
    r := Forwarded(v.data, truncated);
  }

  /** Everything the source writes before the end of the pipe. */
  function Source(script: seq<Read>): seq<byte>
    decreases |script|
  {
    if script == [] then []
    else match script[0]
      case Got(bytes) => if bytes == [] then [] else bytes + Source(script[1..])
      case _ => Source(script[1..])
  }

  ghost predicate Unbroken(script: seq<Read>) {
    forall i :: 0 <= i < |script| ==> !script[i].Broken?
  }

  lemma {:induction false} CollectedIsPrefix(script: seq<Read>, got: seq<byte>)
    requires Unbroken(script) && Bounded(script)
    requires |got| <= MAX_CLIPBOARD_DATA + READ_CHUNK
    ensures Collected(script, got).Some?
    ensures var data := Collected(script, got).value;
            && data <= got + Source(script) && |data| <= MAX_CLIPBOARD_DATA + READ_CHUNK
            && (|data| > MAX_CLIPBOARD_DATA || data == got + Source(script))
    decreases |script|
  {
    if |got| <= MAX_CLIPBOARD_DATA && script != [] {
      match script[0] {
        case Got(bytes) =>
          if bytes != [] {
            CollectedIsPrefix(script[1..], got + bytes);
            assert got + bytes + Source(script[1..]) == got + (bytes + Source(script[1..]));
          }
        case Interrupted => CollectedIsPrefix(script[1..], got);
      }
    }
  }

  lemma CappedOfPrefix(data: seq<byte>, whole: seq<byte>, mime: string)
    requires data <= whole && (|data| > MAX_CLIPBOARD_DATA || data == whole)
    ensures Capped(data, mime) == Capped(whole, mime)
  {
    if |data| > MAX_CLIPBOARD_DATA {
      assert data[..MAX_CLIPBOARD_DATA] == whole[..MAX_CLIPBOARD_DATA];
    }
  }

  /** However the source's bytes arrive, in chunks and with interruptions, what is forwarded is the
      whole source cut to the cap, flagged as truncated exactly when the source is above it. */
  lemma SelectionExact(script: seq<Read>, mime: string)
    requires Unbroken(script) && Bounded(script)
    ensures SelectionOf(Collected(script, []), mime)
         == if Source(script) == [] then Nothing
            else Forwarded(Capped(Source(script), mime), |Source(script)| > MAX_CLIPBOARD_DATA)
  {
    CollectedIsPrefix(script, []);
    assert [] + Source(script) == Source(script);
    CappedOfPrefix(Collected(script, []).value, Source(script), mime);
  }

  /** How many bytes the first `n` reads bring. */
  function Brought(script: seq<Read>, n: nat): nat
    requires n <= |script|
  {
    if n == 0 then 0
    else Brought(script, n - 1) + if script[n - 1].Got? then |script[n - 1].bytes| else 0
  }

  /** Read `i` breaks, before the end of the pipe and before more than the cap has come. */
  ghost predicate BreaksAt(script: seq<Read>, i: nat, had: nat) {
    && i < |script| && script[i].Broken? && had + Brought(script, i) <= MAX_CLIPBOARD_DATA
    && forall j :: 0 <= j < i ==> !script[j].Broken? && (script[j].Got? ==> script[j].bytes != [])
  }

  lemma {:induction false} BroughtLater(script: seq<Read>, i: nat)
    requires i < |script|
    ensures Brought(script, i + 1) == Brought(script[1..], i) + if script[0].Got? then |script[0].bytes| else 0
  {
    if i > 0 {
      BroughtLater(script, i - 1);
      assert script[1..][i - 1] == script[i];
    } else {
      assert Brought(script, 0) == 0;
    }
  }

  lemma BreaksLater(script: seq<Read>, i: nat, had: nat)
    requires script != [] && !script[0].Broken? && (script[0].Got? ==> script[0].bytes != [])
    ensures BreaksAt(script, i + 1, had) <==> BreaksAt(script[1..], i, had + if script[0].Got? then |script[0].bytes| else 0)
  {
    if i < |script[1..]| {
      BroughtLater(script, i);
      if BreaksAt(script[1..], i, had + if script[0].Got? then |script[0].bytes| else 0) {
        forall j | 0 <= j < i + 1 ensures !script[j].Broken? && (script[j].Got? ==> script[j].bytes != []) {
          assert j > 0 ==> script[1..][j - 1] == script[j];
        }
      }
      if BreaksAt(script, i + 1, had) {
        forall j | 0 <= j < i ensures !script[1..][j].Broken? && (script[1..][j].Got? ==> script[1..][j].bytes != []) {
          assert script[1..][j] == script[j + 1];
        }
      }
    }
  }

  lemma {:induction false} CollectedLostIff(script: seq<Read>, got: seq<byte>)
    ensures Collected(script, got).None? <==> exists i: nat :: BreaksAt(script, i, |got|)
    decreases |script|
  {
    if |got| > MAX_CLIPBOARD_DATA || script == [] {
    } else if script[0].Broken? {
      assert BreaksAt(script, 0, |got|);
    } else if script[0].Got? && script[0].bytes == [] {
      forall i: nat ensures !BreaksAt(script, i, |got|) {
      }
    } else {
      var more := if script[0].Got? then got + script[0].bytes else got;
      CollectedLostIff(script[1..], more);
      forall i: nat ensures BreaksAt(script, i + 1, |got|) <==> BreaksAt(script[1..], i, |more|) {
        BreaksLater(script, i, |got|);
      }
      assert !BreaksAt(script, 0, |got|);
      if Collected(script, got).None? {
        var i: nat :| BreaksAt(script[1..], i, |more|);
        assert BreaksAt(script, i + 1, |got|);
      }
      forall i: nat | BreaksAt(script, i, |got|) ensures Collected(script, got).None? {
        assert BreaksAt(script, i - 1 + 1, |got|);
        assert BreaksAt(script[1..], i - 1, |more|);
      }
    }
  }

  /** A selection is lost exactly if the pipe breaks before its end and before more than the cap has
      come. */
  lemma SelectionLostIff(script: seq<Read>, mime: string)
    ensures SelectionOf(Collected(script, []), mime) == Lost <==> exists i: nat :: BreaksAt(script, i, 0)
  {
    CollectedLostIff(script, []);
  }
}
