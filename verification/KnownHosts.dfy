/**
 The store of pinned certificate fingerprints: trust on first use, and the text file it is
 kept in.
 */
module KnownHosts {
  import opened Wrappers
  import opened Ascii

  /** Unicode white space. */
  predicate IsWhite(c: char) {
    var n := c as int;
    || 0x9 <= n <= 0xD || n == 0x20 || n == 0x85 || n == 0xA0 || n == 0x1680
    || 0x2000 <= n <= 0x200A || n == 0x2028 || n == 0x2029 || n == 0x202F || n == 0x205F || n == 0x3000
  }

  function TrimStart(s: string): string {
    if s != "" && IsWhite(s[0]) then TrimStart(s[1..]) else s
  }

  function TrimEnd(s: string): string {
    if s != "" && IsWhite(s[|s| - 1]) then TrimEnd(s[..|s| - 1]) else s
  }

  function Trim(s: string): string { TrimEnd(TrimStart(s)) }

  predicate Trimmed(s: string) {
    s != "" ==> !IsWhite(s[0]) && !IsWhite(s[|s| - 1])
  }

  // ----- fingerprints

  predicate Separator(c: char) { IsWhite(c) || c == ':' }

  function CleanedChar(c: char): string {
    if Separator(c) then "" else [LowerChar(c)]
  }

  function Cleaned(s: string): string {
    if s == "" then "" else CleanedChar(s[0]) + Cleaned(s[1..])
  }

  function StripPrefix(s: string): string {
    if "sha256:" <= s then s[7..] else s
  }

  function NormalizeFingerprint(fp: string): string { Cleaned(StripPrefix(Trim(fp))) }

  predicate FingerprintsMatch(presented: string, expected: string) {
    NormalizeFingerprint(presented) == NormalizeFingerprint(expected)
  }

  lemma {:induction false} CleanedIs(s: string)
    ensures forall i :: 0 <= i < |Cleaned(s)| ==> !Separator(Cleaned(s)[i]) && LowerChar(Cleaned(s)[i]) == Cleaned(s)[i]
  {
    if s != "" { CleanedIs(s[1..]); }
  }

  lemma {:induction false} CleanStays(s: string)
    requires forall i :: 0 <= i < |s| ==> !Separator(s[i]) && LowerChar(s[i]) == s[i]
    ensures Cleaned(s) == s
  {
    if s != "" { CleanStays(s[1..]); }
  }

  /** Normalising is idempotent. */
  lemma NormalizeIdempotent(fp: string)
    ensures NormalizeFingerprint(NormalizeFingerprint(fp)) == NormalizeFingerprint(fp)
  {
    var n := NormalizeFingerprint(fp);
    CleanedIs(StripPrefix(Trim(fp)));
    if "sha256:" <= n {
      assert n[6] == ':' && Separator(n[6]);
    }
    CleanStays(n);
  }

  lemma Associative(a: string, b: string, c: string)
    ensures a + (b + c) == a + b + c
  {
  }

  lemma {:induction false} CleanedConcat(a: string, b: string)
    ensures Cleaned(a + b) == Cleaned(a) + Cleaned(b)
  {
    if a == "" {
      assert a + b == b;
    } else {
      CleanedConcat(a[1..], b);
      assert (a + b)[1..] == a[1..] + b;
      Associative(CleanedChar(a[0]), Cleaned(a[1..]), Cleaned(b));
    }
  }

  lemma {:induction false} CleanedTrim(s: string)
    ensures Cleaned(TrimStart(s)) == Cleaned(s) && Cleaned(TrimEnd(s)) == Cleaned(s)
  {
    if s != "" {
      CleanedTrim(s[1..]);
      CleanedTrim(s[..|s| - 1]);
      if IsWhite(s[|s| - 1]) {
        CleanedConcat(s[..|s| - 1], s[|s| - 1..]);
        assert s == s[..|s| - 1] + s[|s| - 1..];
        assert Cleaned(s[|s| - 1..]) == Cleaned(s[|s|..]) by { assert s[|s| - 1..][1..] == s[|s|..]; }
      }
    }
  }

  lemma {:induction false} TrimStartKeeps(p: string, s: string)
    requires p != "" && !IsWhite(p[0]) && !IsWhite(p[|p| - 1])
    ensures TrimEnd(p + s) == p + TrimEnd(s)
  {
    if s == "" {
      assert p + s == p;
    } else {
      var n := |s| - 1;
      assert (p + s)[|p + s| - 1] == s[n];
      if IsWhite(s[n]) {
        TrimStartKeeps(p, s[..n]);
        assert (p + s)[..|p + s| - 1] == p + s[..n];
      }
    }
  }

  lemma {:induction false} CleanedLength(s: string)
    ensures |Cleaned(s)| <= |s|
  {
    if s != "" { CleanedLength(s[1..]); }
  }

  /** A prefix in any mixture of cases: six characters and a colon. */
  predicate PrefixVariant(p: string) { Lower(p) == "sha256:" }

  lemma VariantChars(p: string)
    requires PrefixVariant(p)
    ensures |p| == 7 && p[6] == ':' && forall i :: 0 <= i < 6 ==> !Separator(p[i])
  {
    assert forall i :: 0 <= i < |p| ==> LowerChar(p[i]) == "sha256:"[i];
  }

  lemma {:induction false} NothingCleaned(s: string)
    requires forall i :: 0 <= i < |s| ==> !Separator(s[i])
    ensures |Cleaned(s)| == |s|
  {
    if s != "" { NothingCleaned(s[1..]); }
  }

  lemma VariantCleans(p: string)
    requires |p| == 7 && p[6] == ':' && forall i :: 0 <= i < 6 ==> !Separator(p[i])
    ensures !IsWhite(p[0]) && !IsWhite(p[6]) && |Cleaned(p)| == 6
  {
    NothingCleaned(p[..6]);
    CleanedConcat(p[..6], p[6..]);
    assert p == p[..6] + p[6..] && p[6..][1..] == "";
  }

  lemma StrippedCleans(t: string)
    requires "sha256:" <= t
    ensures |Cleaned(StripPrefix(t))| == |Cleaned(t)| - 6
  {
    VariantCleans(t[..7]);
    CleanedConcat(t[..7], t[7..]);
    assert t == t[..7] + t[7..];
  }

  lemma NormalizedCleans(fp: string)
    ensures |NormalizeFingerprint(fp)| == |Cleaned(fp)| - if "sha256:" <= Trim(fp) then 6 else 0
    ensures !("sha256:" <= Trim(fp)) ==> NormalizeFingerprint(fp) == Cleaned(fp)
  {
    CleanedTrim(fp);
    CleanedTrim(TrimStart(fp));
    if "sha256:" <= Trim(fp) {
      StrippedCleans(Trim(fp));
    }
  }

  /** Putting a prefix, in any case, before a fingerprint leaves it equal exactly if the prefix is in
      lower case and the fingerprint does not carry one already. */
  lemma PrefixToleratedIff(p: string, fp: string)
    requires PrefixVariant(p)
    ensures FingerprintsMatch(p + fp, fp) <==> p == "sha256:" && !("sha256:" <= Trim(fp))
  {
    VariantChars(p);
    VariantCleans(p);
    assert TrimStart(p + fp) == p + fp by { assert (p + fp)[0] == p[0]; }
    TrimStartKeeps(p, fp);
    CleanedTrim(fp);
    NormalizedCleans(fp);
    if p == "sha256:" {
      assert StripPrefix(p + TrimEnd(fp)) == TrimEnd(fp);
    } else {
      assert (p + TrimEnd(fp))[..7] == p;
      CleanedConcat(p, TrimEnd(fp));
    }
  }

  lemma CapitalVariant()
    ensures PrefixVariant("SHA256:")
  {
    var q := Lower("SHA256:");
    assert q[0] == 's' && q[1] == 'h' && q[2] == 'a' && q[3] == '2' && q[4] == '5' && q[5] == '6' && q[6] == ':';
    assert q == "sha256:";
  }

  /** So a capital prefix is not taken off. */
  lemma UpperCasePrefixKept()
    ensures !FingerprintsMatch("SHA256:" + "AA", "AA")
  {
    CapitalVariant();
    PrefixToleratedIff("SHA256:", "AA");
    assert "SHA256:"[0] != "sha256:"[0];
  }

  // ----- the store

  datatype PinOutcome = Match | FirstUse | Mismatch(expected: string, presented: string)

  datatype IoError = IoError

  function Verdict(pins: map<string, string>, identity: string, presented: string): PinOutcome {
    if identity !in pins then FirstUse
    else if FingerprintsMatch(presented, pins[identity]) then Match
    else Mismatch(pins[identity], presented)
  }

  function Remembered(pins: map<string, string>, identity: string, presented: string): map<string, string> {
    if identity in pins then pins else pins[identity := presented]
  }

  function Line(identity: string, fp: string): string { identity + " " + fp }

  function Print(entries: seq<(string, string)>): string {
    if entries == [] then "" else Line(entries[0].0, entries[0].1) + "\n" + Print(entries[1..])
  }

  /** `entries` lists the pins, each once, in some order. */
  ghost predicate Lists(entries: seq<(string, string)>, pins: map<string, string>) {
    && (forall i :: 0 <= i < |entries| ==> entries[i].0 in pins && pins[entries[i].0] == entries[i].1)
    && (forall id :: id in pins ==> exists i :: 0 <= i < |entries| && entries[i].0 == id)
    && (forall i, j :: 0 <= i < j < |entries| ==> entries[i].0 != entries[j].0)
  }

  ghost predicate Saved(file: string, pins: map<string, string>) {
    exists entries :: Lists(entries, pins) && file == Print(entries)
  }

  class PinStore {
    var pins: map<string, string>
    var file: string

    constructor Open(contents: string)
      ensures file == contents && pins == Parse(contents)
    {
      file := contents;
      new;
      var parsed := ParseKnownHosts(contents);
      pins := parsed;
    }

    /** A pin is recorded even when the file cannot be written. */
    method VerifyOrRemember(identity: string, presented: string, writable: bool) returns (r: Result<PinOutcome, IoError>)
      modifies this
      ensures pins == Remembered(old(pins), identity, presented)
      ensures r == if identity !in old(pins) && !writable then Failure(IoError)
                   else Success(Verdict(old(pins), identity, presented))
      ensures if identity !in old(pins) && writable then Saved(file, pins) else file == old(file)
    {
      if identity in pins {
        if FingerprintsMatch(presented, pins[identity]) {
          return Success(Match);
        }
        return Success(Mismatch(pins[identity], presented));
      }
      pins := pins[identity := presented];
      if !writable {
        return Failure(IoError);
      }
      Persist();
      r := Success(FirstUse);
    }

    method Persist()
      modifies this`file
      ensures Saved(file, pins)
    {
      var entries := Entries();
      var body := "";
      var i := 0;
      while i < |entries|
        invariant 0 <= i <= |entries|
        invariant body + Print(entries[i..]) == Print(entries)
      {
        PrintStep(body, entries, i);
        body := body + Line(entries[i].0, entries[i].1) + "\n";
        i := i + 1;
      }
      assert entries[i..] == [] && body + "" == body;
      file := body;
    }

    method Entries() returns (entries: seq<(string, string)>)
      ensures Lists(entries, pins)
    {
      entries := [];
      var rest := pins.Keys;
      while rest != {}
        invariant rest <= pins.Keys
        invariant forall i :: 0 <= i < |entries| ==>
                    entries[i].0 in pins && entries[i].0 !in rest && pins[entries[i].0] == entries[i].1
        invariant forall id :: id in pins ==> id in rest || exists i :: 0 <= i < |entries| && entries[i].0 == id
        invariant forall i, j :: 0 <= i < j < |entries| ==> entries[i].0 != entries[j].0
        decreases rest
      {
        var id :| id in rest;
        ghost var before := entries;
        entries := entries + [(id, pins[id])];
        rest := rest - {id};
        forall k | k in pins ensures k in rest || exists i :: 0 <= i < |entries| && entries[i].0 == k {
          if k == id {
            assert entries[|before|].0 == k;
          } else if k !in rest {
            var i :| 0 <= i < |before| && before[i].0 == k;
            assert entries[i].0 == k;
          }
        }
      }
    }
  }

  lemma PrintStep(body: string, entries: seq<(string, string)>, i: nat)
    requires i < |entries|
    ensures body + Print(entries[i..]) == body + Line(entries[i].0, entries[i].1) + "\n" + Print(entries[i + 1..])
  {
    assert entries[i..][1..] == entries[i + 1..];
    var line := Line(entries[i].0, entries[i].1);
    Associative(body, line + "\n", Print(entries[i + 1..]));
    Associative(body, line, "\n");
  }

  // ----- the file

  function IndexWhere(s: string, p: char -> bool): (i: nat)
    ensures i <= |s| && (i < |s| ==> p(s[i])) && forall k :: 0 <= k < i ==> !p(s[k])
  {
    if s == "" || p(s[0]) then 0 else 1 + IndexWhere(s[1..], p)
  }

  predicate IsNewline(c: char) { c == '\n' }

  function Lines(s: string): (lines: seq<string>)
    ensures lines != []
    decreases |s|
  {
    var i := IndexWhere(s, IsNewline);
    if i == |s| then [s] else [s[..i]] + Lines(s[i + 1..])
  }

  function ParseLine(line: string): Option<(string, string)> {
    var l := Trim(line);
    if l == "" || l[0] == '#' then None
    else
      var i := IndexWhere(l, IsWhite);
      if i == |l| then None else Some((Trim(l[..i]), Trim(l[i + 1..])))
  }

  function ParseFrom(pins: map<string, string>, lines: seq<string>): map<string, string>
    decreases |lines|
  {
    if lines == [] then pins
    else
      var entry := ParseLine(lines[0]);
      ParseFrom(if entry.Some? then pins[entry.value.0 := entry.value.1] else pins, lines[1..])
  }

  function Parse(contents: string): map<string, string> { ParseFrom(map[], Lines(contents)) }

  method ParseKnownHosts(contents: string) returns (pins: map<string, string>)
    ensures pins == Parse(contents)
  {
    var lines := Lines(contents);
    pins := map[];
    var i := 0;
    while i < |lines|
      invariant 0 <= i <= |lines|
      invariant ParseFrom(pins, lines[i..]) == Parse(contents)
    {
      assert lines[i..][1..] == lines[i + 1..];
      var entry := ParseLine(lines[i]);
      if entry.Some? {
        pins := pins[entry.value.0 := entry.value.1];
      }
      i := i + 1;
    }
  }

  /** A pin that survives being written and read back. */
  predicate WellFormed(identity: string, fp: string) {
    && identity != "" && identity[0] != '#' && (forall i :: 0 <= i < |identity| ==> !IsWhite(identity[i]))
    && fp != "" && Trimmed(fp) && '\n' !in fp
  }

  // ----- reading what was printed

  lemma TrimmedStays(s: string)
    requires Trimmed(s)
    ensures Trim(s) == s
  {
  }

  lemma LineReadsBack(identity: string, fp: string)
    requires WellFormed(identity, fp)
    ensures ParseLine(Line(identity, fp)) == Some((identity, fp)) && '\n' !in Line(identity, fp)
  {
    var l := Line(identity, fp);
    assert l[0] == identity[0] && l[|l| - 1] == fp[|fp| - 1];
    TrimmedStays(l);
    var i := IndexWhere(l, IsWhite);
    assert l[|identity|] == ' ';
    assert forall k :: 0 <= k < |identity| ==> l[k] == identity[k];
    assert i == |identity|;
    assert l[..i] == identity && l[i + 1..] == fp;
    TrimmedStays(identity);
    TrimmedStays(fp);
  }

  lemma LinesHead(line: string, rest: string)
    requires '\n' !in line
    ensures Lines(line + "\n" + rest) == [line] + Lines(rest)
  {
    var s := line + "\n" + rest;
    assert s[|line|] == '\n';
    assert forall k :: 0 <= k < |line| ==> s[k] == line[k];
    assert IndexWhere(s, IsNewline) == |line|;
    assert s[..|line|] == line && s[|line| + 1..] == rest;
  }

  function Merged(pins: map<string, string>, entries: seq<(string, string)>): map<string, string>
    decreases |entries|
  {
    if entries == [] then pins else Merged(pins[entries[0].0 := entries[0].1], entries[1..])
  }

  lemma {:induction false} PrintedReadsBack(pins: map<string, string>, entries: seq<(string, string)>)
    requires forall i :: 0 <= i < |entries| ==> WellFormed(entries[i].0, entries[i].1)
    ensures ParseFrom(pins, Lines(Print(entries))) == Merged(pins, entries)
    decreases |entries|
  {
    if entries == [] {
      assert Lines("") == [""] && ParseLine("") == None;
    } else {
      var (id, fp) := entries[0];
      LineReadsBack(id, fp);
      LinesHead(Line(id, fp), Print(entries[1..]));
      PrintedReadsBack(pins[id := fp], entries[1..]);
      assert ([Line(id, fp)] + Lines(Print(entries[1..])))[1..] == Lines(Print(entries[1..]));
    }
  }

  lemma {:induction false} MergedKeeps(pins: map<string, string>, entries: seq<(string, string)>, id: string)
    requires forall i :: 0 <= i < |entries| ==> entries[i].0 != id
    ensures id in Merged(pins, entries) <==> id in pins
    ensures id in pins ==> Merged(pins, entries)[id] == pins[id]
    decreases |entries|
  {
    if entries != [] { MergedKeeps(pins[entries[0].0 := entries[0].1], entries[1..], id); }
  }

  lemma {:induction false} MergedSets(pins: map<string, string>, entries: seq<(string, string)>, k: nat)
    requires k < |entries| && forall i, j :: 0 <= i < j < |entries| ==> entries[i].0 != entries[j].0
    ensures entries[k].0 in Merged(pins, entries) && Merged(pins, entries)[entries[k].0] == entries[k].1
    decreases |entries|
  {
    if k == 0 {
      MergedKeeps(pins[entries[0].0 := entries[0].1], entries[1..], entries[0].0);
    } else {
      MergedSets(pins[entries[0].0 := entries[0].1], entries[1..], k - 1);
    }
  }

  lemma MergedIsMap(entries: seq<(string, string)>, pins: map<string, string>)
    requires Lists(entries, pins)
    ensures Merged(map[], entries) == pins
  {
    forall id
      ensures id in Merged(map[], entries) <==> id in pins
      ensures id in pins ==> Merged(map[], entries)[id] == pins[id]
    {
      if id in pins {
        var i :| 0 <= i < |entries| && entries[i].0 == id;
        MergedSets(map[], entries, i);
      } else {
        MergedKeeps(map[], entries, id);
      }
    }
  }

  // ----- what is read is well formed

  lemma TrimParts(s: string) returns (i: nat, j: nat)
    ensures i <= j <= |s| && Trim(s) == s[i..j] && Trimmed(Trim(s))
    ensures forall k :: 0 <= k < i ==> IsWhite(s[k])
    ensures forall k :: j <= k < |s| ==> IsWhite(s[k])
  {
    i := TrimStartParts(s);
    j := TrimEndParts(s[i..]);
    var t := s[i..];
    assert t[..j] == s[i..i + j];
    assert forall k :: i + j <= k < |s| ==> s[k] == t[k - i];
    if j > 0 { assert t[..j][0] == t[0]; }
    j := i + j;
  }

  lemma {:induction false} TrimStartParts(s: string) returns (i: nat)
    ensures i <= |s| && TrimStart(s) == s[i..] && (i < |s| ==> !IsWhite(s[i]))
    ensures forall k :: 0 <= k < i ==> IsWhite(s[k])
  {
    if s != "" && IsWhite(s[0]) {
      i := TrimStartParts(s[1..]);
      assert s[1..][i..] == s[i + 1..];
      assert forall k :: 1 <= k < i + 1 ==> s[k] == s[1..][k - 1];
      i := i + 1;
    } else {
      i := 0;
    }
  }

  lemma {:induction false} TrimEndParts(s: string) returns (j: nat)
    ensures j <= |s| && TrimEnd(s) == s[..j] && (j > 0 ==> !IsWhite(s[j - 1]))
    ensures forall k :: j <= k < |s| ==> IsWhite(s[k])
  {
    if s != "" && IsWhite(s[|s| - 1]) {
      var n := |s| - 1;
      j := TrimEndParts(s[..n]);
      assert s[..n][..j] == s[..j];
      assert forall k :: j <= k < n ==> s[k] == s[..n][k];
    } else {
      j := |s|;
    }
  }

  /** Trimming leaves something of a text that ends in a visible character, and adds nothing. */
  lemma TrimKeeps(s: string, c: char)
    ensures Trimmed(Trim(s)) && (c !in s ==> c !in Trim(s))
    ensures s != "" && !IsWhite(s[|s| - 1]) ==> Trim(s) != ""
  {
    var i, j := TrimParts(s);
    if s != "" && !IsWhite(s[|s| - 1]) {
      assert j == |s| && i <= |s| - 1;
    }
  }

  lemma ParsedLineWellFormed(line: string)
    requires '\n' !in line
    ensures ParseLine(line).Some? ==> WellFormed(ParseLine(line).value.0, ParseLine(line).value.1)
  {
    var l := Trim(line);
    TrimKeeps(line, '\n');
    if ParseLine(line).Some? {
      var i := IndexWhere(l, IsWhite);
      assert i > 0 && i < |l| - 1;
      var identity, tail := l[..i], l[i + 1..];
      assert forall k :: 0 <= k < i ==> identity[k] == l[k];
      TrimmedStays(identity);
      assert tail[|tail| - 1] == l[|l| - 1] && '\n' !in tail;
      TrimKeeps(tail, '\n');
    }
  }

  lemma {:induction false} LinesHaveNoNewline(s: string)
    ensures forall i :: 0 <= i < |Lines(s)| ==> '\n' !in Lines(s)[i]
    decreases |s|
  {
    var i := IndexWhere(s, IsNewline);
    if i < |s| {
      LinesHaveNoNewline(s[i + 1..]);
    }
  }

  ghost predicate AllWellFormed(pins: map<string, string>) {
    forall id :: id in pins ==> WellFormed(id, pins[id])
  }

  lemma {:induction false} ParseFromWellFormed(pins: map<string, string>, lines: seq<string>)
    requires AllWellFormed(pins) && forall i :: 0 <= i < |lines| ==> '\n' !in lines[i]
    ensures AllWellFormed(ParseFrom(pins, lines))
    decreases |lines|
  {
    if lines != [] {
      ParsedLineWellFormed(lines[0]);
      var entry := ParseLine(lines[0]);
      ParseFromWellFormed(if entry.Some? then pins[entry.value.0 := entry.value.1] else pins, lines[1..]);
    }
  }

  /** Whatever the file says, the pins read from it are well formed. */
  lemma ParsedWellFormed(contents: string)
    ensures AllWellFormed(Parse(contents))
  {
    LinesHaveNoNewline(contents);
    ParseFromWellFormed(map[], Lines(contents));
  }

  /** Writing the pins, in any order, and reading them back gives the same pins exactly when every
      pin is well formed. */
  lemma FileRoundTripsIff(pins: map<string, string>, entries: seq<(string, string)>)
    requires Lists(entries, pins)
    ensures Parse(Print(entries)) == pins <==> AllWellFormed(pins)
  {
    if AllWellFormed(pins) {
      PrintedReadsBack(map[], entries);
      MergedIsMap(entries, pins);
    } else {
      ParsedWellFormed(Print(entries));
    }
  }

  /** A pin that does not survive its own file: the identity contains a space. */
  lemma SpacedIdentityChanges()
    ensures Lists([("a b", "c")], map["a b" := "c"]) && Parse(Print([("a b", "c")])) != map["a b" := "c"]
  {
    var pins: map<string, string> := map["a b" := "c"];
    assert IsWhite("a b"[1]) && !WellFormed("a b", pins["a b"]);
    assert [("a b", "c")][0].0 == "a b";
    FileRoundTripsIff(pins, [("a b", "c")]);
  }

  // ----- runs

  datatype Call = Call(identity: string, presented: string)

  function PinsAfter(pins: map<string, string>, calls: seq<Call>): map<string, string> {
    if calls == [] then pins
    else
      var n := |calls| - 1;
      Remembered(PinsAfter(pins, calls[..n]), calls[n].identity, calls[n].presented)
  }

  lemma {:induction false} PinsStay(pins: map<string, string>, calls: seq<Call>, n: nat, id: string)
    requires n <= |calls| && id in PinsAfter(pins, calls[..n])
    ensures id in PinsAfter(pins, calls) && PinsAfter(pins, calls)[id] == PinsAfter(pins, calls[..n])[id]
    decreases |calls|
  {
    if n < |calls| {
      var m := |calls| - 1;
      assert calls[..m][..n] == calls[..n];
      PinsStay(pins, calls[..m], n, id);
    } else {
      assert calls[..n] == calls;
    }
  }

  /** Trust on first use: once an identity has presented a first fingerprint, every later call for
      it, after any calls for anyone, matches exactly if it presents the same one, formatting
      aside, and is otherwise refused with the first one. */
  lemma FirstFingerprintDecides(pins: map<string, string>, calls: seq<Call>, i: nat, j: nat)
    requires i < j < |calls| && calls[i].identity == calls[j].identity
    requires calls[i].identity !in PinsAfter(pins, calls[..i])
    ensures Verdict(PinsAfter(pins, calls[..i]), calls[i].identity, calls[i].presented) == FirstUse
    ensures Verdict(PinsAfter(pins, calls[..j]), calls[j].identity, calls[j].presented)
         == if NormalizeFingerprint(calls[j].presented) == NormalizeFingerprint(calls[i].presented) then Match
            else Mismatch(calls[i].presented, calls[j].presented)
  {
    assert calls[..i + 1][..i] == calls[..i];
    assert calls[..j][..i + 1] == calls[..i + 1];
    PinsStay(pins, calls[..j], i + 1, calls[i].identity);
  }
}
