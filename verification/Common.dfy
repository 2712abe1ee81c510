/** Small value types and sequence helpers shared by the models. */
module Common {

  datatype Option<+T> = None | Some(value: T)

  /** One octet, as the sockets, the serial line and the firmware buffers carry it. */
  type byte = x: int | 0 <= x < 256

  /** The elements an optional value holds: none or one. */
  function Elements<T>(o: Option<T>): set<T> {
    if o.Some? then {o.value} else {}
  }

  /** `s` without the element at index `i`; a pending thread leaves its list this way. */
  function Without<T>(s: seq<T>, i: nat): (r: seq<T>)
    requires i < |s|
    ensures |r| == |s| - 1
    ensures forall x :: x in s && x != s[i] ==> x in r
    ensures forall x :: x in r ==> x in s
  {
    assert s == s[..i] + [s[i]] + s[i + 1..];
    s[..i] + s[i + 1..]
  }

  /** `s` with the element at index `i` replaced; a thread moves on to its next stage this way. */
  function Put<T>(s: seq<T>, i: nat, x: T): (r: seq<T>)
    requires i < |s|
    ensures |r| == |s| && r[i] == x
    ensures forall y :: y in s && y != s[i] ==> y in r
    ensures forall y :: y in r ==> y in s || y == x
  {
    assert forall k :: 0 <= k < |s| && k != i ==> s[i := x][k] == s[k];
    s[i := x]
  }

  lemma ConcatAssociates<T>(a: seq<T>, b: seq<T>, c: seq<T>)
    ensures (a + b) + c == a + (b + c)
  {
  }

  // ---- C strings --------------------------------------------------------------------

  type text = seq<byte>

  const NUL: byte := 0

  /** The bytes before the first NUL. */
  function CString(s: text): (r: text)
    ensures |r| <= |s| && r == s[..|r|] && NUL !in r
    ensures |r| < |s| ==> s[|r|] == NUL
    ensures NUL !in s ==> r == s
  {
    if s == [] || s[0] == NUL then [] else [s[0]] + CString(s[1..])
  }

  lemma {:induction false} CStringUpTo(s: text, n: nat)
    requires n < |s| && s[n] == NUL && NUL !in s[..n]
    ensures CString(s) == s[..n]
  {
    if n > 0 {
      assert s[0] == s[..n][0];
      assert s[1..][..n - 1] == s[..n][1..];
      CStringUpTo(s[1..], n - 1);
    }
  }

  lemma {:induction false} SameCString(s: text, n: nat, d: text)
    requires n < |s| && s[..n] == d && s[n] == NUL
    ensures CString(s) == CString(d)
  {
    if n > 0 {
      assert s[0] == d[0];
      assert s[1..][..n - 1] == d[1..];
      SameCString(s[1..], n - 1, d[1..]);
    }
  }
}
