/** Canonical forms and validity of names, byte by byte. */
module NameValidation {
  import opened Common

  type byte = x: int | 0 <= x < 256

  type Name = seq<byte>

  const HYPHEN: byte := 45
  const MAX_RAW := 64
  const MAX_NAME := 32

  datatype Error = InputTooLong | EmptyName | NameTooLong

  predicate IsSpace(b: byte) {
    b == 32 || b == 9 || b == 10 || b == 13
  }

  function Lower(b: byte): byte {
    if 65 <= b <= 90 then b + 32 else b
  }

  predicate IsAlnum(b: byte) {
    97 <= b <= 122 || 48 <= b <= 57
  }

  // ---------- canonical form: the reference ----------

  function TrimStart(s: Name): Name {
    if |s| > 0 && IsSpace(s[0]) then TrimStart(s[1..]) else s
  }

  function TrimEnd(s: Name): Name {
    if |s| > 0 && IsSpace(s[|s| - 1]) then TrimEnd(s[..|s| - 1]) else s
  }

  function Trim(s: Name): Name {
    TrimEnd(TrimStart(s))
  }

  function LowerAll(s: Name): Name {
    seq(|s|, i requires 0 <= i < |s| => Lower(s[i]))
  }

  /** The canonical form of a raw name: trimmed, then lowercased, when it fits. */
  function Canonical(raw: Name): Result<Name, Error> {
    if |raw| > MAX_RAW then Err(InputTooLong)
    else if Trim(raw) == [] then Err(EmptyName)
    else if |Trim(raw)| > MAX_NAME then Err(NameTooLong)
    else Ok(LowerAll(Trim(raw)))
  }

  predicate AllSpaces(s: Name) {
    forall b :: b in s ==> IsSpace(b)
  }

  /** Neither end is whitespace. */
  predicate Tight(s: Name) {
    |s| > 0 ==> !IsSpace(s[0]) && !IsSpace(s[|s| - 1])
  }

  lemma {:induction false} TrimStartIs(pre: Name, s: Name)
    requires AllSpaces(pre) && (|s| > 0 ==> !IsSpace(s[0]))
    ensures TrimStart(pre + s) == s
    decreases |pre|
  {
    if |pre| == 0 {
      assert pre + s == s;
    } else {
      assert pre[0] in pre;
      assert (pre + s)[1..] == pre[1..] + s;
      TrimStartIs(pre[1..], s);
    }
  }

  lemma {:induction false} TrimEndIs(s: Name, post: Name)
    requires AllSpaces(post) && (|s| > 0 ==> !IsSpace(s[|s| - 1]))
    ensures TrimEnd(s + post) == s
    decreases |post|
  {
    if |post| == 0 {
      assert s + post == s;
    } else {
      assert post[|post| - 1] in post;
      assert (s + post)[..|s + post| - 1] == s + post[..|post| - 1];
      TrimEndIs(s, post[..|post| - 1]);
    }
  }

  /** Trimming is the tight core of its input, however the surrounding whitespace is cut off. */
  lemma TrimIs(pre: Name, core: Name, post: Name)
    requires AllSpaces(pre) && AllSpaces(post) && Tight(core)
    ensures Trim(pre + core + post) == core
  {
    if core == [] {
      assert pre + core + post == (pre + post) + [];
      TrimStartIs(pre + post, []);
    } else {
      assert pre + core + post == pre + (core + post);
      TrimStartIs(pre, core + post);
      TrimEndIs(core, post);
    }
  }

  lemma LowerAllKeeps(s: Name)
    ensures LowerAll(LowerAll(s)) == LowerAll(s)
    ensures Tight(s) ==> Tight(LowerAll(s))
  {
  }

  lemma TightTrims(s: Name)
    requires Tight(s)
    ensures Trim(s) == s
  {
    TrimIs([], s, []);
    assert [] + s + [] == s;
  }

  lemma {:induction false} TrimStartCuts(s: Name)
    ensures |TrimStart(s)| <= |s|
    ensures var n := |s| - |TrimStart(s)|; TrimStart(s) == s[n..] && AllSpaces(s[..n])
    ensures |TrimStart(s)| > 0 ==> !IsSpace(TrimStart(s)[0])
    decreases |s|
  {
    if |s| > 0 && IsSpace(s[0]) {
      TrimStartCuts(s[1..]);
      var n := |s| - |TrimStart(s)|;
      assert s[..n] == [s[0]] + s[1..][..n - 1];
    }
  }

  lemma {:induction false} TrimEndCuts(s: Name)
    ensures TrimEnd(s) <= s && AllSpaces(s[|TrimEnd(s)|..])
    ensures |TrimEnd(s)| > 0 ==> !IsSpace(TrimEnd(s)[|TrimEnd(s)| - 1])
    decreases |s|
  {
    if |s| > 0 && IsSpace(s[|s| - 1]) {
      TrimEndCuts(s[..|s| - 1]);
      var n := |TrimEnd(s)|;
      assert s[n..] == s[..|s| - 1][n..] + [s[|s| - 1]];
    }
  }

  /** Trimming cuts whitespace off both ends and leaves none there. */
  lemma TrimCutsSpace(s: Name) returns (pre: Name, post: Name)
    ensures s == pre + Trim(s) + post && AllSpaces(pre) && AllSpaces(post) && Tight(Trim(s))
  {
    TrimStartCuts(s);
    TrimEndCuts(TrimStart(s));
    pre, post := s[..|s| - |TrimStart(s)|], TrimStart(s)[|Trim(s)|..];
  }

  /** A raw name has a canonical form exactly if it has at most 64 bytes and its tight core between
      whitespace has 1 to 32: the core with its capitals lowered. Each refusal has its own reason. */
  lemma CanonicalMeaning(pre: Name, core: Name, post: Name)
    requires AllSpaces(pre) && AllSpaces(post) && Tight(core)
    ensures var raw, r := pre + core + post, Canonical(pre + core + post);
            && (r.Ok? <==> |raw| <= 64 && 1 <= |core| <= 32)
            && (r == Err(InputTooLong) <==> |raw| > 64)
            && (r == Err(EmptyName) <==> |raw| <= 64 && core == [])
            && (r.Ok? ==> |r.value| == |core|
                          && forall i :: 0 <= i < |core| ==>
                               r.value[i] == if 'A' as int <= core[i] <= 'Z' as int then core[i] + 32 else core[i])
    ensures forall b: byte :: IsSpace(b) <==> b as char in {' ', '\t', '\n', '\r'}
  {
    TrimIs(pre, core, post);
  }

  /** A canonical form is its own canonical form. */
  lemma CanonicalIdempotent(raw: Name)
    requires Canonical(raw).Ok?
    ensures Canonical(Canonical(raw).value) == Canonical(raw)
  {
    var pre, post := TrimCutsSpace(raw);
    LowerAllKeeps(Trim(raw));
    TightTrims(LowerAll(Trim(raw)));
  }

  /** Padding with whitespace and changing letter case do not change the canonical form. */
  lemma CanonicalIgnores(pre: Name, core: Name, post: Name, other: Name)
    requires AllSpaces(pre) && AllSpaces(post) && Tight(core) && |pre + core + post| <= MAX_RAW
    requires Tight(other) && LowerAll(other) == LowerAll(core)
    ensures Canonical(pre + core + post) == Canonical(other)
  {
    assert |LowerAll(other)| == |other| && |LowerAll(core)| == |core|;
    TrimIs(pre, core, post);
    TightTrims(other);
  }

  // ---------- canonical form: the loops ----------

  /** The lowercasing loop into the output buffer. */
  method LowerSlice(buf: array<byte>, start: nat, len: nat) returns (lowered: Name)
    requires start + len <= buf.Length && len <= MAX_NAME
    ensures lowered == LowerAll(buf[start..start + len])
  {
    var out := new byte[MAX_NAME];
    ghost var slice := buf[start..start + len];
    for i := 0 to len
      invariant buf[start..start + len] == slice
      invariant forall j :: 0 <= j < i ==> out[j] == Lower(slice[j])
    {
      assert slice[i] == buf[start + i];
      out[i] := Lower(buf[start + i]);
    }
    assert out[..len] == LowerAll(slice);
    return out[..len];
  }

  /** The trimming loops over the buffer. */
  method TrimBounds(buf: array<byte>, rawLen: nat) returns (start: nat, end: nat)
    requires rawLen <= buf.Length
    ensures start <= end <= rawLen
    ensures buf[start..end] == Trim(buf[..rawLen])
  {
    start, end := 0, rawLen;
    ghost var name := buf[..rawLen];
    while start < end && IsSpace(buf[start])
      invariant start <= end == rawLen
      invariant AllSpaces(name[..start])
    {
      assert name[..start + 1] == name[..start] + [name[start]];
      start := start + 1;
    }
    while end > start && IsSpace(buf[end - 1])
      invariant start <= end <= rawLen
      invariant AllSpaces(name[end..])
    {
      assert name[end - 1..] == [name[end - 1]] + name[end..];
      end := end - 1;
    }
    assert name == name[..start] + name[start..end] + name[end..];
    assert name[start..end] == buf[start..end];
    TrimIs(name[..start], name[start..end], name[end..]);
  }

  /** The input bounds, then the loops over the stack buffers. */
  method CanonicalizeName(name: Name) returns (r: Result<Name, Error>)
    ensures r == Canonical(name)
  {
    hide Trim, LowerAll;
    var rawLen := |name|;
    if rawLen > MAX_RAW {
      return Err(InputTooLong);
    }
    var buf := new byte[MAX_RAW];
    forall i | 0 <= i < rawLen {
      buf[i] := name[i];
    }
    assert buf[..rawLen] == name;
    var start, end := TrimBounds(buf, rawLen);
    if start == end {
      return Err(EmptyName);
    }
    if end - start > MAX_NAME {
      return Err(NameTooLong);
    }
    var lowered := LowerSlice(buf, start, end - start);
    return Ok(lowered);
  }

  // ---------- validity: the reference ----------

  predicate IsRun(run: Name) {
    |run| > 0 && forall b :: b in run ==> IsAlnum(b)
  }

  predicate AreRuns(runs: seq<Name>) {
    |runs| > 0 && forall run :: run in runs ==> IsRun(run)
  }

  /** Runs joined by single hyphens. */
  function Join(runs: seq<Name>): Name
    requires |runs| > 0
  {
    if |runs| == 1 then runs[0] else runs[0] + [HYPHEN] + Join(runs[1..])
  }

  /** 3 to 32 bytes that are runs of lowercase letters and digits joined by single hyphens. */
  ghost predicate ValidName(name: Name) {
    3 <= |name| <= MAX_NAME && exists runs: seq<Name> :: AreRuns(runs) && name == Join(runs)
  }

  /** What the loop sees: allowed bytes, no hyphen at either end, no two in a row. */
  predicate Spelled(name: Name) {
    && |name| > 0 && name[0] != HYPHEN && name[|name| - 1] != HYPHEN
    && (forall i :: 0 <= i < |name| ==> IsAlnum(name[i]) || name[i] == HYPHEN)
    && forall i :: 0 < i < |name| ==> name[i - 1] != HYPHEN || name[i] != HYPHEN
  }

  lemma {:induction false} RunsAreSpelled(runs: seq<Name>)
    requires AreRuns(runs)
    ensures Spelled(Join(runs))
    decreases |runs|
  {
    var first := runs[0];
    assert IsRun(first);
    assert forall i :: 0 <= i < |first| ==> first[i] in first;
    if |runs| > 1 {
      var rest := Join(runs[1..]);
      RunsAreSpelled(runs[1..]);
      var name := first + [HYPHEN] + rest;
      forall i | 0 <= i < |name|
        ensures IsAlnum(name[i]) || name[i] == HYPHEN
        ensures 0 < i ==> name[i - 1] != HYPHEN || name[i] != HYPHEN
      {
        if i > |first| {
          assert name[i] == rest[i - |first| - 1];
          if i > |first| + 1 {
            assert name[i - 1] == rest[i - |first| - 2];
          }
        }
      }
      assert name[|name| - 1] == rest[|rest| - 1];
    }
  }

  lemma {:induction false} SpelledHasRuns(name: Name) returns (runs: seq<Name>)
    requires Spelled(name)
    ensures AreRuns(runs) && Join(runs) == name
    decreases |name|
  {
    if |name| == 1 {
      runs := [name];
    } else if name[1] == HYPHEN {
      var rest := name[2..];
      assert forall i :: 0 <= i < |rest| ==> rest[i] == name[i + 2];
      assert name[1] == HYPHEN && name[|name| - 1] != HYPHEN;
      var tail := SpelledHasRuns(rest);
      runs := [[name[0]]] + tail;
      assert runs[1..] == tail;
      assert name == [name[0]] + [HYPHEN] + rest;
    } else {
      var rest := name[1..];
      assert forall i :: 0 <= i < |rest| ==> rest[i] == name[i + 1];
      var tail := SpelledHasRuns(rest);
      var first := [name[0]] + tail[0];
      assert IsRun(tail[0]);
      runs := [first] + tail[1..];
      assert forall run :: run in runs ==> run == first || run in tail;
      assert name == [name[0]] + rest;
      assert runs[1..] == tail[1..];
    }
  }

  // ---------- validity: the loop ----------

  method ValidateName(name: Name) returns (ok: bool)
    ensures ok <==> ValidName(name)
  {
    var len := |name|;
    if len < 3 || len > MAX_NAME {
      return false;
    }
    SpelledIffRuns(name);
    var buf := new byte[MAX_NAME];
    forall i | 0 <= i < len {
      buf[i] := name[i];
    }
    if buf[0] == HYPHEN || buf[len - 1] == HYPHEN {
      return false;
    }
    var prevHyphen := false;
    for i := 0 to len
      invariant forall j :: 0 <= j < len ==> buf[j] == name[j]
      invariant prevHyphen <==> i > 0 && name[i - 1] == HYPHEN
      invariant forall j :: 0 <= j < i ==> IsAlnum(name[j]) || name[j] == HYPHEN
      invariant forall j :: 0 < j < i ==> name[j - 1] != HYPHEN || name[j] != HYPHEN
    {
      var b := buf[i];
      if IsAlnum(b) {
        prevHyphen := false;
      } else if b == HYPHEN {
        if prevHyphen {
          return false;
        }
        prevHyphen := true;
      } else {
        return false;
      }
    }
    return true;
  }

  lemma SpelledIffRuns(name: Name)
    ensures Spelled(name) <==> exists runs: seq<Name> :: AreRuns(runs) && name == Join(runs)
    ensures forall b: byte :: IsAlnum(b) <==> 'a' <= b as char <= 'z' || '0' <= b as char <= '9'
  {
    if Spelled(name) {
      var runs := SpelledHasRuns(name);
    } else if exists runs: seq<Name> :: AreRuns(runs) && name == Join(runs) {
      var runs: seq<Name> :| AreRuns(runs) && name == Join(runs);
      RunsAreSpelled(runs);
    }
  }

  /** A valid name is already canonical. */
  lemma ValidIsCanonical(name: Name)
    requires ValidName(name)
    ensures Canonical(name) == Ok(name)
  {
    SpelledIffRuns(name);
    TightTrims(name);
    assert LowerAll(name) == name;
  }
}
