/**
 * Parsing of the two External-DNS annotations the controller reads from a
 * VirtualMachineInstance: the comma-separated hostname list and the TTL.
 */
module Annotations {
  import opened Optional
  import opened Text
  import opened Decimal

  const HostnameKey: string := "external-dns.alpha.kubernetes.io/hostname"
  const TtlKey: string := "external-dns.alpha.kubernetes.io/ttl"

  /** The two annotation keys are different, so setting one never touches the other. */
  lemma {:induction false} KeysDiffer()
    ensures HostnameKey != TtlKey
  {
    assert HostnameKey[|HostnameKey| - 1] != TtlKey[|TtlKey| - 1];
  }

  /** TTL used when the annotation is absent or unusable. */
  const DefaultTTL: int := 300

  /** A name as `parseHostnames` can return it. */
  predicate ValidHostname(h: string) {
    |h| > 0 && IsTrimmed(h) && CommaFree(h)
  }

  predicate AllValidHostnames(hs: seq<string>) {
    forall h :: h in hs ==> ValidHostname(h)
  }

  // ---------------------------------------------------------------- hostnames

  /** Trims every piece and keeps the non-empty ones, in order. */
  function TrimmedNonEmpty(pieces: seq<string>): (r: seq<string>)
    ensures |r| <= |pieces|
    decreases |pieces|
  {
    if |pieces| == 0 then []
    else
      var h := Trim(pieces[0]);
      (if h != "" then [h] else []) + TrimmedNonEmpty(pieces[1..])
  }

  /** `parseHostnames`: split on commas, trim, drop empty tokens. */
  function ParseHostnames(raw: string): seq<string> {
    TrimmedNonEmpty(Split(raw))
  }

  /**
   * Every parsed name is non-empty, trimmed and comma-free, and the names are
   * exactly the non-empty trimmed comma-separated pieces of the input.
   */
  lemma {:induction false} ParseHostnamesSpec(raw: string)
    ensures AllValidHostnames(ParseHostnames(raw))
    ensures forall h :: h in ParseHostnames(raw) <==> h != "" && exists p :: p in Split(raw) && Trim(p) == h
  {
    SplitCommaFreePieces(raw);
    TrimmedNonEmptyValid(Split(raw));
    TrimmedNonEmptyMembers(Split(raw));
  }

  lemma {:induction false} TrimmedNonEmptyValid(pieces: seq<string>)
    requires forall p :: p in pieces ==> CommaFree(p)
    ensures AllValidHostnames(TrimmedNonEmpty(pieces))
    decreases |pieces|
  {
    if |pieces| > 0 {
      assert pieces[0] in pieces;
      TrimCommaFree(pieces[0]);
      TrimSpec(pieces[0]);
      assert forall p :: p in pieces[1..] ==> p in pieces;
      TrimmedNonEmptyValid(pieces[1..]);
    }
  }

  lemma {:induction false} TrimmedNonEmptyMembers(pieces: seq<string>)
    ensures forall h :: h in TrimmedNonEmpty(pieces) <==>
      h != "" && exists p :: p in pieces && Trim(p) == h
    decreases |pieces|
  {
    if |pieces| > 0 {
      TrimmedNonEmptyMembers(pieces[1..]);
      assert pieces == [pieces[0]] + pieces[1..];
      forall h | h != "" && (exists p :: p in pieces && Trim(p) == h)
        ensures h in TrimmedNonEmpty(pieces)
      {
        var p :| p in pieces && Trim(p) == h;
        if p != pieces[0] {
          assert p in pieces[1..];
        }
      }
      forall h | h in TrimmedNonEmpty(pieces)
        ensures h != "" && exists p :: p in pieces && Trim(p) == h
      {
        if h in TrimmedNonEmpty(pieces[1..]) {
          var p :| p in pieces[1..] && Trim(p) == h;
          assert p in pieces;
        } else {
          assert Trim(pieces[0]) == h;
        }
      }
    }
  }

  lemma {:induction false} HeadTail<T>(s: seq<T>)
    requires |s| > 0
    ensures [s[0]] + s[1..] == s
  {
  }

  lemma {:induction false} TrimmedNonEmptyOfValid(hs: seq<string>)
    requires AllValidHostnames(hs)
    ensures TrimmedNonEmpty(hs) == hs
    decreases |hs|
  {
    if |hs| > 0 {
      assert hs[0] in hs;
      TrimTrimmed(hs[0]);
      assert forall h :: h in hs[1..] ==> h in hs;
      TrimmedNonEmptyOfValid(hs[1..]);
      assert TrimmedNonEmpty(hs) == [hs[0]] + TrimmedNonEmpty(hs[1..]);
      HeadTail(hs);
    }
  }

  /**
   * Round trip: joining valid names with commas and parsing the result gives
   * back exactly the names, in order.
   */
  lemma {:induction false} ParseHostnamesJoin(hs: seq<string>)
    requires AllValidHostnames(hs)
    ensures ParseHostnames(Join(hs)) == hs
  {
    if |hs| == 0 {
      assert Split("") == [""];
      TrimAllSpace("");
    } else {
      SplitJoin(hs);
      TrimmedNonEmptyOfValid(hs);
    }
  }

  lemma {:induction false} TrimmedNonEmptyBlank(pieces: seq<string>)
    requires forall p :: p in pieces ==> AllSpace(p)
    ensures TrimmedNonEmpty(pieces) == []
    decreases |pieces|
  {
    if |pieces| > 0 {
      TrimAllSpace(pieces[0]);
      TrimmedNonEmptyBlank(pieces[1..]);
    }
  }

  /**
   * Input made only of commas and whitespace (the empty string included)
   * names no host.
   */
  lemma {:induction false} ParseHostnamesBlank(raw: string)
    requires forall i :: 0 <= i < |raw| ==> raw[i] == ',' || IsSpace(raw[i])
    ensures ParseHostnames(raw) == []
  {
    var pieces := Split(raw);
    JoinSplit(raw);
    SplitCommaFreePieces(raw);
    forall k | 0 <= k < |pieces|
      ensures AllSpace(pieces[k])
    {
      JoinPieceChars(pieces, k);
      forall i | 0 <= i < |pieces[k]|
        ensures IsSpace(pieces[k][i])
      {
        assert pieces[k] in pieces;
        var c := pieces[k][i];
        assert c != ',';
        assert c in raw;
        var j :| 0 <= j < |raw| && raw[j] == c;
      }
    }
    TrimmedNonEmptyBlank(pieces);
  }

  /** Every character of a piece occurs in the joined string. */
  lemma {:induction false} JoinPieceChars(pieces: seq<string>, k: nat)
    requires k < |pieces|
    ensures forall c :: c in pieces[k] ==> c in Join(pieces)
    decreases |pieces|
  {
    if |pieces| > 1 {
      var rest := Join(pieces[1..]);
      assert Join(pieces) == pieces[0] + "," + rest;
      if k > 0 {
        JoinPieceChars(pieces[1..], k - 1);
      }
    }
  }

  // --------------------------------------------------------------------- TTL

  /**
   * `parseTTL`: the empty annotation, a parse error, or a value that is not
   * positive all give the default; any other value passes through unchanged.
   */
  function ParseTTL(raw: string): (ttl: int)
    ensures 0 < ttl <= MaxInt64
    ensures ttl == DefaultTTL || ParseInt64(Trim(raw)) == Some(ttl)
    ensures (match ParseInt64(Trim(raw))
             case Some(v) => v > 0
             case None => false) ==> ParseInt64(Trim(raw)) == Some(ttl)
  {
    if raw == "" then DefaultTTL
    else
      match ParseInt64(Trim(raw))
      case None => DefaultTTL
      case Some(v) => if v <= 0 then DefaultTTL else v
  }

  /**
   * A positive int64 written in decimal, with any surrounding whitespace, is
   * the TTL itself; there is no upper bound beyond int64.
   */
  lemma {:induction false} ParseTTLDecimal(a: string, n: int, b: string)
    requires AllSpace(a) && AllSpace(b)
    requires 0 < n <= MaxInt64
    ensures ParseTTL(a + FormatNat(n) + b) == n
  {
    var s := FormatNat(n);
    assert IsTrimmed(s) by {
      assert IsDigit(s[0]) && IsDigit(s[|s| - 1]);
    }
    TrimUnique(a, s, b);
    ParseFormatInt(n);
    assert |a + s + b| > 0;
  }

  /** Zero and negative values fall back to the default. */
  lemma {:induction false} ParseTTLNotPositive(raw: string)
    requires match ParseInt64(Trim(raw))
             case Some(v) => v <= 0
             case None => true
    ensures ParseTTL(raw) == DefaultTTL
  {
  }
}
