/** Names as C strings in fixed fields. */
module Names {
  import opened Arith
  import opened Bytes
  import opened Layout

  /** What C reads of s as a string: the bytes in front of its first NUL. */
  function CString(s: seq<byte>): (c: seq<byte>)
    ensures c <= s && 0 !in c
    ensures |c| < |s| ==> s[|c|] == 0
  {
    if s == [] || s[0] == 0 then [] else [s[0]] + CString(s[1..])
  }

  /** The field holds the string s, cut after 111 characters, and NUL bytes from there to its end. */
  ghost predicate NameIs(field: seq<byte>, s: seq<byte>) {
    && |field| == NAME_LEN
    && forall k :: 0 <= k < NAME_LEN ==> field[k] == if k < |CString(s)| && k < NAME_LEN - 1 then s[k] else 0
  }

  /** The field is what it is as a string, and NUL behind that. */
  ghost predicate Padded(field: seq<byte>) {
    NameIs(field, field)
  }

  /** The length of the C string s, up to max; past its end s reads as NUL. */
  function StrLen(s: seq<byte>, max: nat): (n: nat)
    ensures n == MinNat(|CString(s)|, max)
    decreases max
  {
    if max == 0 || s == [] || s[0] == 0 then 0 else 1 + StrLen(s[1..], max - 1)
  }

  /** vtx2_name_copy: at most 111 characters, then NUL to the end of the field. */
  function NameCopy(s: seq<byte>): (name: seq<byte>)
    ensures NameIs(name, s)
  {
    var n := StrLen(s, NAME_LEN - 1);
    s[..n] + seq(NAME_LEN - n, _ => 0)
  }

  /** A prefix without NUL that ends at one, or at the end, is the string. */
  lemma {:induction false} CStringIs(s: seq<byte>, c: seq<byte>)
    requires c <= s && 0 !in c && (|c| < |s| ==> s[|c|] == 0)
    ensures CString(s) == c
  {
    if c != [] {
      assert s[0] == c[0] && c[0] in c;
      assert forall k :: 0 <= k < |c[1..]| ==> c[1..][k] == c[k + 1] && c[k + 1] in c;
      CStringIs(s[1..], c[1..]);
    }
  }

  /** Only one field holds a given string. */
  lemma OneField(f: seq<byte>, g: seq<byte>, s: seq<byte>)
    requires NameIs(f, s)
    ensures NameIs(g, s) <==> g == f
  {
  }

  /** What is stored reads back as the given name, cut after 111 characters. */
  lemma ReadsBack(field: seq<byte>, s: seq<byte>)
    requires NameIs(field, s)
    ensures CString(field) == CString(s)[..MinNat(|CString(s)|, NAME_LEN - 1)] && Padded(field)
  {
    var c := CString(s)[..MinNat(|CString(s)|, NAME_LEN - 1)];
    assert forall k :: 0 <= k < |c| ==> field[k] == c[k] && c[k] in CString(s);
    CStringIs(field, c);
  }

  /** A padded field holds the string that C reads from it, and no other of up to 111 characters. */
  lemma HoldsString(field: seq<byte>, s: seq<byte>)
    requires Padded(field) && |CString(s)| < NAME_LEN
    ensures NameIs(field, s) <==> CString(field) == CString(s)
  {
    if NameIs(field, s) {
      ReadsBack(field, s);
    } else if CString(field) == CString(s) {
      forall k | 0 <= k < NAME_LEN ensures field[k] == if k < |CString(s)| && k < NAME_LEN - 1 then s[k] else 0 {
        if k < |CString(s)| {
          assert CString(field)[k] == CString(s)[k];
        }
      }
    }
  }

  /** Padded fields are the same bytes exactly when they are the same string. */
  lemma OneString(f: seq<byte>, g: seq<byte>)
    requires Padded(f) && Padded(g)
    ensures f == g <==> CString(f) == CString(g)
  {
    hide NameIs;
    ReadsBack(f, f);
    ReadsBack(g, g);
    HoldsString(f, g);
    OneField(g, f, g);
  }

  /** Two names of up to 111 characters are stored alike exactly when they are equal up to their NUL. */
  lemma SameName(a: seq<byte>, b: seq<byte>)
    requires |CString(a)| < NAME_LEN && |CString(b)| < NAME_LEN
    ensures NameCopy(a) == NameCopy(b) <==> CString(a) == CString(b)
  {
    hide NameIs, NameCopy;
    ReadsBack(NameCopy(a), a);
    HoldsString(NameCopy(a), b);
    OneField(NameCopy(b), NameCopy(a), b);
  }

  /** vtx2_strlen_bounded. */
  method StrLenBounded(s: seq<byte>, max: nat) returns (n: nat)
    ensures n == StrLen(s, max)
  {
    n := 0;
    assert s[0..] == s;
    while n < max && n < |s| && s[n] != 0
      invariant n <= max && n <= |s|
      invariant StrLen(s, max) == n + StrLen(s[n..], max - n)
    {
      assert s[n..][1..] == s[n + 1..];
      n := n + 1;
    }
  }
}
