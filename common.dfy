/**
 * Values shared by every part of the caro (five-in-a-row) server model:
 * optional values, identifiers, the Python errors a handler can raise,
 * decimal rendering of integers and removal of a list element.
 */
module Common {

  datatype Option<+T> = None | Some(value: T)

  /** Connection ids handed out by the server; its counter starts at 1, so an id is never falsy. */
  type ClientId = x: int | x >= 1 witness 1

  /** Room ids are strings of the form "room_<n>". */
  type RoomId = string

  /** An opaque handle for a client's socket. */
  type SocketId = nat

  /** The exceptions a handler can raise on its crash paths (subscripting a missing key, a short list or None). */
  datatype PyError = KeyError | IndexError | TypeError

  /** How a handler ended: it returned normally, or an exception escaped after the effects made so far. */
  datatype Completion = Returned | Raised(error: PyError)

  /** A value, or the exception computing it raised. */
  datatype Result<T> = Ok(value: T) | Fail(error: PyError)

  /** The three values of a room's `status` field. */
  datatype RoomStatus = Waiting | Playing | Finished {
    function Name(): string {
      match this
      case Waiting => "waiting"
      case Playing => "playing"
      case Finished => "finished"
    }
  }

  /** Python truthiness of an optional string: None and "" are false. */
  predicate Truthy(s: Option<string>) {
    s.Some? && s.value != ""
  }

  /** Python's `str(x)` for an optional string value inside an f-string. */
  function Show(s: Option<string>): string {
    if s.Some? then s.value else "None"
  }

  /** The character of decimal digit d. */
  function DigitChar(d: nat): (c: char)
    requires d < 10
    ensures '0' <= c <= '9' && c as int - '0' as int == d
  {
    ('0' as int + d) as char
  }

  /** Decimal rendering of a natural number, as Python's `str` prints it. */
  function NatToString(n: nat): (s: string)
    ensures |s| >= 1
    ensures forall i :: 0 <= i < |s| ==> '0' <= s[i] <= '9'
    ensures (|s| == 1) == (n < 10)
  {
    if n < 10 then [DigitChar(n)] else NatToString(n / 10) + [DigitChar(n % 10)]
  }

  /** Different numbers have different decimal renderings. */
  lemma {:induction false} NatToStringInjective(a: nat, b: nat)
    requires NatToString(a) == NatToString(b)
    ensures a == b
  {
    var sa, sb := NatToString(a), NatToString(b);
    if a < 10 || b < 10 {
      assert a < 10 && b < 10;
    } else {
      assert sa[|sa| - 1] == DigitChar(a % 10) && sb[|sb| - 1] == DigitChar(b % 10);
      assert NatToString(a / 10) == sa[..|sa| - 1] == sb[..|sb| - 1] == NatToString(b / 10);
      NatToStringInjective(a / 10, b / 10);
    }
  }

  /** Python's `str(n)` for any integer. */
  function IntToString(n: int): (s: string)
    ensures |s| >= 1
    ensures (s[0] == '-') == (n < 0)
  {
    if n < 0 then "-" + NatToString(-n) else NatToString(n)
  }

  /** Python's `list.remove(x)`: drops the first occurrence of x (the callers here check `x in s` first). */
  function RemoveFirst<T(==)>(s: seq<T>, x: T): (r: seq<T>)
    ensures x in s ==> |r| == |s| - 1
    ensures x !in s ==> r == s

  {
    if s == [] then []
    else
      assert s == [s[0]] + s[1..];
      if s[0] == x then s[1..] else [s[0]] + RemoveFirst(s[1..], x)
  }

  /** `list.remove(x)` takes out exactly one occurrence of x, when there is one, and keeps everything else. */
  lemma {:induction false} RemoveFirstMultiset<T>(s: seq<T>, x: T)
    ensures multiset(RemoveFirst(s, x)) == multiset(s) - multiset{x}
  {
    if s != [] {
      assert s == [s[0]] + s[1..];
      if s[0] != x {
        RemoveFirstMultiset(s[1..], x);
      }
    }
  }

  /** Python's `list.index(x)`: the position of the first occurrence. */
  function IndexOf<T(==)>(s: seq<T>, x: T): (i: nat)
    requires x in s
    ensures i < |s| && s[i] == x
    ensures forall j :: 0 <= j < i ==> s[j] != x
  {
    if s[0] == x then 0 else 1 + IndexOf(s[1..], x)
  }

  /** Python's `list.reverse()` result. */
  function Reverse<T>(s: seq<T>): (r: seq<T>)
    ensures |r| == |s|
    ensures forall i :: 0 <= i < |s| ==> r[i] == s[|s| - 1 - i]
  {
    if s == [] then [] else Reverse(s[1..]) + [s[0]]
  }

  predicate Distinct<T(==)>(s: seq<T>) {
    forall i, j :: 0 <= i < j < |s| ==> s[i] != s[j]
  }

  /** Removing a key from a duplicate-free order leaves a duplicate-free order of the other keys. */
  lemma {:induction false} RemoveFirstDistinct<T>(s: seq<T>, x: T)
    requires Distinct(s)
    ensures Distinct(RemoveFirst(s, x))
    ensures forall y :: y in RemoveFirst(s, x) <==> y in s && y != x
  {
    if s != [] && s[0] != x {
      RemoveFirstDistinct(s[1..], x);
      var r := RemoveFirst(s[1..], x);
      assert RemoveFirst(s, x) == [s[0]] + r;
      assert s[0] !in r by {
        assert s[0] !in s[1..];
      }
    }
  }

  /** Python's `str.isspace()` for one character. */
  predicate IsSpace(c: char) {
    || ('\t' <= c <= '\r')
    || ('\U{1C}' <= c <= ' ')
    || c == '\U{85}' || c == '\U{A0}' || c == '\U{1680}'
    || ('\U{2000}' <= c <= '\U{200A}')
    || c == '\U{2028}' || c == '\U{2029}' || c == '\U{202F}' || c == '\U{205F}' || c == '\U{3000}'
  }

  /** Where the text starts once `str.lstrip()` has dropped the whitespace from index i on. */
  function TextStart(s: string, i: nat): (n: nat)
    requires i <= |s|
    ensures i <= n <= |s|
    ensures forall k :: i <= k < n ==> IsSpace(s[k])
    ensures n < |s| ==> !IsSpace(s[n])
    decreases |s| - i
  {
    if i < |s| && IsSpace(s[i]) then TextStart(s, i + 1) else i
  }

  /** Where the text ends once `str.rstrip()` has dropped the whitespace before index j, down to lo. */
  function TextEnd(s: string, lo: nat, j: nat): (m: nat)
    requires lo <= j <= |s|
    ensures lo <= m <= j
    ensures forall k :: m <= k < j ==> IsSpace(s[k])
    ensures m > lo ==> !IsSpace(s[m - 1])
  {
    if lo < j && IsSpace(s[j - 1]) then TextEnd(s, lo, j - 1) else j
  }

  /** Python's `str.strip()`. */
  function Strip(s: string): string {
    var i := TextStart(s, 0);
    s[i..TextEnd(s, i, |s|)]
  }

  /** `strip()` gives the empty string exactly when the text is all whitespace. */
  lemma StripEmptyIffBlank(s: string)
    ensures Strip(s) == [] <==> forall k :: 0 <= k < |s| ==> IsSpace(s[k])
  {
    var i := TextStart(s, 0);
    if Strip(s) == [] && i < |s| {
      assert false;
    }
  }

  /** Stripping twice strips nothing more. */
  lemma StripIdempotent(s: string)
    ensures Strip(Strip(s)) == Strip(s)
  {
    var r := Strip(s);
    if r != [] {
      var i := TextStart(s, 0);
      assert r[0] == s[i] && r[|r| - 1] == s[TextEnd(s, i, |s|) - 1];
      assert TextStart(r, 0) == 0;
      assert TextEnd(r, 0, |r|) == |r|;
    }
  }
}
