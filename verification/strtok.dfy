/** Splitting a search path on ':' the way strtok_r does it (empty fields are
    skipped), together with the plain field split it is measured against. */
module Strtok {

  /** The delimiter string handed to strtok_r, as a character. */
  const Sep: char := ':'

  /** Length of the leading run of characters that are not the separator. */
  function SegmentLen(s: string): (n: nat)
    ensures n <= |s|
    ensures forall k :: 0 <= k < n ==> s[k] != Sep
    ensures n == |s| || s[n] == Sep
    decreases |s|
  {
    if |s| == 0 || s[0] == Sep then 0 else 1 + SegmentLen(s[1..])
  }

  /** The three facts above pin the run length down uniquely. */
  lemma SegmentLenUnique(s: string, n: nat)
    requires n <= |s|
    requires forall k :: 0 <= k < n ==> s[k] != Sep
    requires n == |s| || s[n] == Sep
    ensures SegmentLen(s) == n
  {
  }

  /** A separator-free field followed by the separator is one whole run. */
  lemma SegmentLenOfField(f: string, tail: string)
    requires Sep !in f
    requires |tail| == 0 || tail[0] == Sep
    ensures SegmentLen(f + tail) == |f|
  {
    var s := f + tail;
    assert forall k :: 0 <= k < |f| ==> s[k] == f[k];
    SegmentLenUnique(s, |f|);
  }

  /** The tokens that successive strtok_r(…, ":", …) calls hand back, in
      order: every maximal non-empty run of non-separator characters. */
  function Tokens(s: string): (r: seq<string>)
    ensures forall i :: 0 <= i < |r| ==> |r[i]| > 0 && Sep !in r[i]
    decreases |s|
  {
    if |s| == 0 then []
    else if s[0] == Sep then Tokens(s[1..])
    else
      var n := SegmentLen(s);
      [s[..n]] + Tokens(s[n..])
  }

  /** Every ':'-separated field of `s`, empty fields included. */
  function Fields(s: string): (r: seq<string>)
    ensures |r| > 0
    ensures forall i :: 0 <= i < |r| ==> Sep !in r[i]
    decreases |s|
  {
    var n := SegmentLen(s);
    if n == |s| then [s] else [s[..n]] + Fields(s[n + 1..])
  }

  /** Glue fields back together with the separator between them. */
  function Join(fields: seq<string>): string
    requires |fields| > 0
  {
    if |fields| == 1 then fields[0] else fields[0] + [Sep] + Join(fields[1..])
  }

  /** The fields of `fields` that are not empty, in order. */
  function NonEmpty(fields: seq<string>): (r: seq<string>)
    ensures forall i :: 0 <= i < |r| ==> |r[i]| > 0
  {
    if |fields| == 0 then []
    else if |fields[0]| == 0 then NonEmpty(fields[1..])
    else [fields[0]] + NonEmpty(fields[1..])
  }

  /** Splitting and joining are inverse: nothing of the path is lost. */
  lemma {:induction false} JoinFields(s: string)
    ensures Join(Fields(s)) == s
    decreases |s|
  {
    var n := SegmentLen(s);
    if n < |s| {
      JoinFields(s[n + 1..]);
      assert s == s[..n] + [Sep] + s[n + 1..];
    }
  }

  /** Joining separator-free fields and splitting again gives the fields back. */
  lemma {:induction false} FieldsJoin(fields: seq<string>)
    requires |fields| > 0
    requires forall i :: 0 <= i < |fields| ==> Sep !in fields[i]
    ensures Fields(Join(fields)) == fields
    decreases |fields|
  {
    var f := fields[0];
    if |fields| == 1 {
      SegmentLenOfField(f, []);
      assert f + [] == f;
    } else {
      var rest := Join(fields[1..]);
      var s := f + ([Sep] + rest);
      assert Join(fields) == s;
      SegmentLenOfField(f, [Sep] + rest);
      assert s[..|f|] == f;
      assert s[|f| + 1..] == rest;
      FieldsJoin(fields[1..]);
    }
  }

  /** strtok_r's tokens are exactly the non-empty fields of the path. */
  lemma {:induction false} TokensAreNonEmptyFields(s: string)
    ensures Tokens(s) == NonEmpty(Fields(s))
    decreases |s|
  {
    var n := SegmentLen(s);
    if |s| == 0 {
    } else if s[0] == Sep {
      assert n == 0;
      TokensAreNonEmptyFields(s[1..]);
    } else {
      assert n > 0;
      if n == |s| {
        assert s[..n] == s;
        assert s[n..] == [];
      } else {
        var t := s[n..];
        assert t[0] == Sep && t[1..] == s[n + 1..];
        TokensAreNonEmptyFields(s[n + 1..]);
      }
    }
  }
}
