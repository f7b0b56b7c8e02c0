/**
 * String helpers the controller borrows from Go's `strings` package:
 * `TrimSpace` over the ASCII whitespace set, and `Split`/`Join` on a comma.
 */
module Text {

  /** The ASCII whitespace characters `strings.TrimSpace` removes. */
  predicate IsSpace(c: char) {
    c == ' ' || c == '\t' || c == '\n' || c == '\r' || c == '\U{B}' || c == '\U{C}'
  }

  predicate AllSpace(s: string) {
    forall i :: 0 <= i < |s| ==> IsSpace(s[i])
  }

  /** No whitespace at either end. */
  predicate IsTrimmed(s: string) {
    |s| == 0 || (!IsSpace(s[0]) && !IsSpace(s[|s| - 1]))
  }

  predicate CommaFree(s: string) {
    forall i :: 0 <= i < |s| ==> s[i] != ','
  }

  /** `r` is `s` with a whitespace-only prefix and suffix cut away. */
  predicate IsTrimOf(s: string, r: string) {
    exists i, j :: 0 <= i <= j <= |s| && r == s[i..j] && AllSpace(s[..i]) && AllSpace(s[j..])
  }

  /** Drops leading whitespace. */
  function TrimLeft(s: string): string
    decreases |s|
  {
    if |s| > 0 && IsSpace(s[0]) then TrimLeft(s[1..]) else s
  }

  /** Drops trailing whitespace. */
  function TrimRight(s: string): string
    decreases |s|
  {
    if |s| > 0 && IsSpace(s[|s| - 1]) then TrimRight(s[..|s| - 1]) else s
  }

  /** `strings.TrimSpace`. */
  function Trim(s: string): string {
    TrimRight(TrimLeft(s))
  }

  lemma {:induction false} TrimLeftFacts(s: string)
    ensures var r := TrimLeft(s);
      |r| <= |s| && r == s[|s| - |r|..] && AllSpace(s[..|s| - |r|]) && (|r| > 0 ==> !IsSpace(r[0]))
    decreases |s|
  {
    if |s| > 0 && IsSpace(s[0]) {
      TrimLeftFacts(s[1..]);
      var r := TrimLeft(s[1..]);
      assert s[|s| - |r|..] == s[1..][|s| - 1 - |r|..];
      assert s[..|s| - |r|] == [s[0]] + s[1..][..|s| - 1 - |r|];
    }
  }

  lemma {:induction false} TrimRightFacts(s: string)
    ensures var r := TrimRight(s);
      |r| <= |s| && r == s[..|r|] && AllSpace(s[|r|..]) && (|r| > 0 ==> !IsSpace(r[|r| - 1]))
    decreases |s|
  {
    if |s| > 0 && IsSpace(s[|s| - 1]) {
      var p := s[..|s| - 1];
      TrimRightFacts(p);
      var r := TrimRight(p);
      assert s[..|r|] == p[..|r|];
      assert s[|r|..] == p[|r|..] + [s[|s| - 1]];
    }
  }

  /**
   * `Trim` removes a whitespace-only prefix and suffix and leaves a result
   * with no whitespace at either end.
   */
  lemma {:induction false} TrimSpec(s: string)
    ensures IsTrimmed(Trim(s))
    ensures IsTrimOf(s, Trim(s))
  {
    TrimLeftFacts(s);
    var l := TrimLeft(s);
    TrimRightFacts(l);
    var r := TrimRight(l);
    if |r| > 0 {
      assert r[0] == l[0];
    }
    var i := |s| - |l|;
    var j := i + |r|;
    assert r == s[i..j];
    assert AllSpace(s[j..]) by {
      assert s[j..] == l[|r|..];
    }
    assert 0 <= i <= j <= |s| && r == s[i..j] && AllSpace(s[..i]) && AllSpace(s[j..]);
  }

  lemma {:induction false} TrimLeftSkipsSpace(a: string, m: string)
    requires AllSpace(a)
    requires |m| == 0 || !IsSpace(m[0])
    ensures TrimLeft(a + m) == m
    decreases |a|
  {
    if |a| == 0 {
      assert a + m == m;
    } else {
      assert (a + m)[1..] == a[1..] + m;
      TrimLeftSkipsSpace(a[1..], m);
    }
  }

  lemma {:induction false} TrimRightSkipsSpace(m: string, b: string)
    requires AllSpace(b)
    requires |m| == 0 || !IsSpace(m[|m| - 1])
    ensures TrimRight(m + b) == m
    decreases |b|
  {
    if |b| == 0 {
      assert m + b == m;
    } else {
      assert (m + b)[..|m + b| - 1] == m + b[..|b| - 1];
      TrimRightSkipsSpace(m, b[..|b| - 1]);
    }
  }

  /**
   * The characterisation is exact: whatever whitespace surrounds a trimmed
   * middle part, `Trim` returns that middle part.
   */
  lemma {:induction false} TrimUnique(a: string, m: string, b: string)
    requires AllSpace(a) && AllSpace(b) && IsTrimmed(m)
    ensures Trim(a + m + b) == m
  {
    if |m| == 0 {
      assert a + m + b == a + b;
      TrimLeftSkipsSpace(a + b, "");
      assert a + b + "" == a + b;
    } else {
      assert a + m + b == a + (m + b);
      TrimLeftSkipsSpace(a, m + b);
      TrimRightSkipsSpace(m, b);
    }
  }

  /** Trimming a trimmed string changes nothing, so `Trim` is idempotent. */
  lemma {:induction false} TrimTrimmed(s: string)
    requires IsTrimmed(s)
    ensures Trim(s) == s
  {
    TrimUnique("", s, "");
    assert "" + s + "" == s;
  }

  lemma {:induction false} TrimIdempotent(s: string)
    ensures Trim(Trim(s)) == Trim(s)
  {
    TrimSpec(s);
    TrimTrimmed(Trim(s));
  }

  lemma {:induction false} TrimAllSpace(s: string)
    requires AllSpace(s)
    ensures Trim(s) == ""
  {
    TrimUnique(s, "", "");
    assert s + "" + "" == s;
  }

  /** Trimming never introduces a comma. */
  lemma {:induction false} TrimCommaFree(s: string)
    requires CommaFree(s)
    ensures CommaFree(Trim(s))
  {
    TrimSpec(s);
    var i, j :| 0 <= i <= j <= |s| && Trim(s) == s[i..j] && AllSpace(s[..i]) && AllSpace(s[j..]);
  }

  /** `strings.Split(s, ",")`: always at least one piece, none holding a comma. */
  function Split(s: string): (r: seq<string>)
    ensures |r| >= 1
    decreases |s|
  {
    if |s| == 0 then [""]
    else if s[0] == ',' then [""] + Split(s[1..])
    else
      var rest := Split(s[1..]);
      [[s[0]] + rest[0]] + rest[1..]
  }

  /** No piece of a split holds the separator. */
  lemma {:induction false} SplitCommaFreePieces(s: string)
    ensures forall p :: p in Split(s) ==> CommaFree(p)
    decreases |s|
  {
    if |s| > 0 {
      SplitCommaFreePieces(s[1..]);
      var rest := Split(s[1..]);
      if s[0] != ',' {
        assert rest[0] in rest;
        assert forall p :: p in rest[1..] ==> p in rest;
      }
    }
  }

  /** `strings.Join(parts, ",")`. */
  function Join(parts: seq<string>): string
    decreases |parts|
  {
    if |parts| == 0 then ""
    else if |parts| == 1 then parts[0]
    else parts[0] + "," + Join(parts[1..])
  }

  lemma {:induction false} SplitCommaFree(p: string)
    requires CommaFree(p)
    ensures Split(p) == [p]
    decreases |p|
  {
    if |p| > 0 {
      SplitCommaFree(p[1..]);
      assert [p[0]] + p[1..] == p;
    }
  }

  lemma {:induction false} SplitCons(p: string, rest: string)
    requires CommaFree(p)
    ensures Split(p + "," + rest) == [p] + Split(rest)
    decreases |p|
  {
    if |p| == 0 {
      assert p + "," + rest == [','] + rest;
      assert ([','] + rest)[1..] == rest;
    } else {
      var s := p + "," + rest;
      assert s[1..] == p[1..] + "," + rest;
      SplitCons(p[1..], rest);
      assert [p[0]] + p[1..] == p;
    }
  }

  /** Joining comma-free pieces and splitting again gives the pieces back. */
  lemma {:induction false} SplitJoin(parts: seq<string>)
    requires |parts| >= 1
    requires forall p :: p in parts ==> CommaFree(p)
    ensures Split(Join(parts)) == parts
    decreases |parts|
  {
    if |parts| == 1 {
      SplitCommaFree(parts[0]);
    } else {
      SplitJoin(parts[1..]);
      SplitCons(parts[0], Join(parts[1..]));
      assert [parts[0]] + parts[1..] == parts;
    }
  }

  /** Prefixing a character to the first piece prefixes it to the joined text. */
  lemma {:induction false} JoinCons(c: char, rest: seq<string>)
    requires |rest| >= 1
    ensures Join([[c] + rest[0]] + rest[1..]) == [c] + Join(rest)
  {
    var head := [c] + rest[0];
    var r := [head] + rest[1..];
    assert r[0] == head && |r| == |rest|;
    if |rest| > 1 {
      assert r[1..] == rest[1..];
      var tail := Join(rest[1..]);
      assert Join(r) == head + "," + tail;
      assert Join(rest) == rest[0] + "," + tail;
      assert head + "," + tail == [c] + (rest[0] + "," + tail);
    }
  }

  /** Splitting loses nothing: joining the pieces rebuilds the input. */
  lemma {:induction false} JoinSplit(s: string)
    ensures Join(Split(s)) == s
    decreases |s|
  {
    if |s| == 0 {
    } else if s[0] == ',' {
      JoinSplit(s[1..]);
      var rest := Split(s[1..]);
      assert ([""] + rest)[1..] == rest;
      assert "" + "," + Join(rest) == [','] + s[1..];
      assert [','] + s[1..] == s;
    } else {
      JoinSplit(s[1..]);
      JoinCons(s[0], Split(s[1..]));
      assert [s[0]] + s[1..] == s;
    }
  }
}
