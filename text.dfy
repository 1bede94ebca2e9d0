/** String helpers standing for the Python string operations the core uses. */
module Text {

  /** Python's `str.lower()` restricted to ASCII: 'A'..'Z' map to 'a'..'z', every other
      character is left alone. */
  function LowerChar(c: char): (r: char)
    ensures 'A' <= c <= 'Z' ==> r as int == c as int + 32
    ensures !('A' <= c <= 'Z') ==> r == c
    ensures !('A' <= r <= 'Z')
  {
    if 'A' <= c <= 'Z' then (c as int + 32) as char else c
  }

  function Lower(s: string): (r: string)
    ensures |r| == |s|
    ensures forall i :: 0 <= i < |s| ==> r[i] == LowerChar(s[i])
  {
    seq(|s|, i requires 0 <= i < |s| => LowerChar(s[i]))
  }

  lemma LowerIdempotent(s: string)
    ensures Lower(Lower(s)) == Lower(s)
  {
  }

  /** `sep.join(items)`. */
  function Join(sep: string, items: seq<string>): string
  {
    if items == [] then ""
    else if |items| == 1 then items[0]
    else items[0] + sep + Join(sep, items[1..])
  }

  /** `s.startswith(p)`. */
  predicate StartsWith(s: string, p: string)
  {
    |p| <= |s| && s[..|p|] == p
  }

  /** Python's `p in s` for two strings. */
  predicate IsSubstring(p: string, s: string)
    decreases |s|
  {
    |p| <= |s| && (s[..|p|] == p || (s != [] && IsSubstring(p, s[1..])))
  }

  /** The index just after the last '/' in `s` (0 when there is none). */
  function BaseStart(s: string): (k: nat)
    ensures k <= |s|
    ensures k > 0 ==> s[k - 1] == '/'
    ensures forall i :: k <= i < |s| ==> s[i] != '/'
  {
    if s == [] then 0
    else if s[|s| - 1] == '/' then |s|
    else BaseStart(s[..|s| - 1])
  }

  /** POSIX `os.path.basename`: everything after the last '/'. */
  function Basename(s: string): (r: string)
    ensures forall i :: 0 <= i < |r| ==> r[i] != '/'
  {
    var k := BaseStart(s);
    s[k..]
  }

  /** Decimal digits of a natural number, as `str(n)` writes them. */
  function DecimalDigit(d: nat): char
    requires d < 10
  {
    "0123456789"[d]
  }

  function NatToDecimal(n: nat): (r: string)
    ensures |r| > 0
    ensures forall i :: 0 <= i < |r| ==> '0' <= r[i] <= '9'
    decreases n
  {
    if n < 10 then [DecimalDigit(n)] else NatToDecimal(n / 10) + [DecimalDigit(n % 10)]
  }

  /** `s.rfind(c)`: the index of the last `c`, or -1. */
  function RFind(s: string, c: char): (r: int)
    ensures -1 <= r < |s|
    ensures r >= 0 ==> s[r] == c
    ensures forall i :: r < i < |s| ==> s[i] != c
  {
    if s == [] then -1
    else if s[|s| - 1] == c then |s| - 1
    else RFind(s[..|s| - 1], c)
  }

  /** The last `c` of `a + b` is in `b` when `b` has one, and otherwise it is the last `c` of `a`. */
  lemma {:induction false} RFindConcat(a: string, b: string, c: char)
    ensures RFind(a + b, c) == if RFind(b, c) >= 0 then |a| + RFind(b, c) else RFind(a, c)
    decreases |b|
  {
    if b == [] {
      assert a + b == a;
    } else {
      assert (a + b)[..|a + b| - 1] == a + b[..|b| - 1];
      RFindConcat(a, b[..|b| - 1], c);
    }
  }

  /** POSIX `os.path.splitext(p)`: the extension runs from the last '.' of the last path
      component to the end, provided that component has something other than dots before it;
      otherwise the extension is empty. */
  function SplitExt(p: string): (r: (string, string))
  {
    var sep := RFind(p, '/');
    var dot := RFind(p, '.');
    if dot > sep && !(forall j :: sep + 1 <= j < dot ==> p[j] == '.') then (p[..dot], p[dot..])
    else (p, "")
  }

  /** The two parts put back together give the path; a non-empty extension is one dot followed
      by neither '.' nor '/', and the root's last component is not all dots. */
  lemma SplitExtParts(p: string)
    ensures SplitExt(p).0 + SplitExt(p).1 == p
    ensures var ext := SplitExt(p).1;
            ext == [] ||
            (ext[0] == '.' && forall i :: 1 <= i < |ext| ==> ext[i] != '.' && ext[i] != '/')
    ensures var (root, ext) := SplitExt(p);
            ext != [] ==> exists j :: RFind(p, '/') + 1 <= j < |root| && root[j] != '.'
  {
    var sep := RFind(p, '/');
    var dot := RFind(p, '.');
    if dot > sep && !(forall j :: sep + 1 <= j < dot ==> p[j] == '.') {
      var ext := p[dot..];
      assert p[..dot] + ext == p;
      forall i | 1 <= i < |ext| ensures ext[i] != '.' && ext[i] != '/' {
        assert ext[i] == p[dot + i];
      }
    }
  }
}
