/** Small shared vocabulary: optional values and the string helpers every layer uses. */
module Common {

  datatype Option<+T> = None | Some(value: T)

  type Id = string

  /** ASCII lower-casing, as `strings.ToLower` does on the hex strings handled here. */
  function LowerChar(c: char): (r: char)
    ensures !('A' <= r <= 'Z')
    ensures r == c || ('A' <= c <= 'Z' && r as int == c as int + 32)
  {
    if 'A' <= c <= 'Z' then ((c as int) + 32) as char else c
  }

  function Lower(s: string): (r: string)
    ensures |r| == |s|
    ensures forall i :: 0 <= i < |s| ==> r[i] == LowerChar(s[i])
  {
    seq(|s|, i requires 0 <= i < |s| => LowerChar(s[i]))
  }

  predicate HasHexPrefix(s: string) {
    |s| >= 2 && s[..2] == "0x"
  }

  /** What a string denotes: "0x" + c denotes c, and any other string denotes itself. */
  ghost predicate Denotes(s: string, c: string) {
    if HasHexPrefix(s) then s == "0x" + c else s == c
  }

  /** Drops one leading "0x", if there is one. */
  function RemoveHexPrefix(s: string): (r: string)
    ensures Denotes(s, r)
  {
    if |s| >= 2 && s[0] == '0' && s[1] == 'x' then s[2..] else s
  }

  /** A string denotes one thing only, and "0x" + c denotes c whatever c is. */
  lemma DenotesOne(s: string, c: string)
    ensures Denotes(s, c) <==> c == RemoveHexPrefix(s)
    ensures RemoveHexPrefix("0x" + c) == c
  {
    assert ("0x" + c)[..2] == "0x" && ("0x" + c)[2..] == c;
    if HasHexPrefix(s) && s == "0x" + c {
      assert s[2..] == c;
    }
  }

  lemma Associative<T>(a: seq<T>, b: seq<T>, c: seq<T>)
    ensures a + (b + c) == (a + b) + c
  {
  }

  /** Sequence filter that keeps order. */
  function Keep<T(!new)>(p: T -> bool, s: seq<T>): (r: seq<T>)
    ensures forall x :: x in r <==> x in s && p(x)
    ensures |r| <= |s|
  {
    if s == [] then []
    else if p(s[0]) then [s[0]] + Keep(p, s[1..])
    else Keep(p, s[1..])
  }

  lemma {:induction false} KeepConcat<T(!new)>(p: T -> bool, a: seq<T>, b: seq<T>)
    ensures Keep(p, a + b) == Keep(p, a) + Keep(p, b)
  {
    if a == [] {
      assert a + b == b;
    } else {
      assert (a + b)[1..] == a[1..] + b;
      KeepConcat(p, a[1..], b);
    }
  }
}
