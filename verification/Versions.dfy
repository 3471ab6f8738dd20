/** Dotted versions as integer tuples, compared as tuples (`elfscan.py`). */
module Versions {
  import opened Base

  type Version = seq<nat>

  predicate IsDigit(c: char) {
    '0' <= c <= '9'
  }

  /** Tuple comparison: the first difference decides, a proper prefix is smaller. */
  predicate Less(a: Version, b: Version) {
    b != [] && (a == [] || a[0] < b[0] || (a[0] == b[0] && Less(a[1..], b[1..])))
  }

  lemma {:induction false} LessIsTotal(a: Version, b: Version)
    ensures Less(a, b) || Less(b, a) || a == b
    ensures !(Less(a, b) && Less(b, a)) && !Less(a, a)
  {
    if a != [] && b != [] {
      LessIsTotal(a[1..], b[1..]);
      LessIsTotal(a[1..], a[1..]);
      assert a == [a[0]] + a[1..] && b == [b[0]] + b[1..];
    } else if a != [] {
      LessIsTotal(a[1..], a[1..]);
    }
  }

  lemma {:induction false} LessTransitive(a: Version, b: Version, c: Version)
    requires Less(a, b) && Less(b, c)
    ensures Less(a, c)
  {
    if a != [] && a[0] == b[0] == c[0] {
      LessTransitive(a[1..], b[1..], c[1..]);
    }
  }

  /** A strict total order: irreflexive, asymmetric, total and transitive. */
  lemma LessIsTotalOrder(a: Version, b: Version, c: Version)
    ensures !Less(a, a) && !(Less(a, b) && Less(b, a)) && (Less(a, b) || Less(b, a) || a == b)
    ensures Less(a, b) && Less(b, c) ==> Less(a, c)
  {
    LessIsTotal(a, b);
    if Less(a, b) && Less(b, c) {
      LessTransitive(a, b, c);
    }
  }

  lemma AtMostTransitive(a: Version, b: Version, c: Version)
    requires !Less(b, a) && !Less(c, b)
    ensures !Less(c, a)
  {
    LessIsTotal(a, b);
    LessIsTotal(b, c);
    if Less(a, b) && Less(b, c) {
      LessTransitive(a, b, c);
      LessIsTotal(a, c);
    }
  }

  function ParseNat(s: string): nat
    requires forall k | 0 <= k < |s| :: IsDigit(s[k])
  {
    if s == "" then 0
    else
      var last := s[|s| - 1];
      assert IsDigit(last);
      10 * ParseNat(s[..|s| - 1]) + (last as int - '0' as int)
  }

  /** Splits on dots; every part must be a non-empty run of ASCII digits. */
  function VersionTuple(value: string): Option<Version> {
    PartsFrom(value, "")
  }

  function PartsFrom(rest: string, part: string): Option<Version>
    requires forall k | 0 <= k < |part| :: IsDigit(part[k])
    decreases |rest|
  {
    if rest == "" then (if part == "" then None else Some([ParseNat(part)]))
    else if rest[0] == '.' then
      if part == "" then None
      else match PartsFrom(rest[1..], "") case None => None case Some(tail) => Some([ParseNat(part)] + tail)
    else if IsDigit(rest[0]) then PartsFrom(rest[1..], part + [rest[0]])
    else None
  }

  /** The decimal numeral of a number. */
  function Digits(n: nat): (s: string)
    ensures s != "" && forall k | 0 <= k < |s| :: IsDigit(s[k])
  {
    var last := [(n % 10 + '0' as int) as char];
    if n < 10 then last else Digits(n / 10) + last
  }

  function Render(v: Version): string
    requires v != []
  {
    if |v| == 1 then Digits(v[0]) else Digits(v[0]) + (['.'] + Render(v[1..]))
  }

  lemma {:induction false} ParseDigits(n: nat)
    ensures ParseNat(Digits(n)) == n
  {
    var s := Digits(n);
    if n >= 10 {
      ParseDigits(n / 10);
      assert s[..|s| - 1] == Digits(n / 10);
    } else {
      assert s[..|s| - 1] == "";
    }
  }

  /** A run of digits is taken into the part being read. */
  lemma {:induction false} DigitsAreRead(digits: string, rest: string, part: string)
    requires forall k | 0 <= k < |part| :: IsDigit(part[k])
    requires forall k | 0 <= k < |digits| :: IsDigit(digits[k])
    ensures PartsFrom(digits + rest, part) == PartsFrom(rest, part + digits)
  {
    if digits == "" {
      assert digits + rest == rest && part + digits == part;
    } else {
      DigitsAreRead(digits[1..], rest, part + [digits[0]]);
      assert (digits + rest)[1..] == digits[1..] + rest;
      assert part + [digits[0]] + digits[1..] == part + digits;
    }
  }

  /** A numeral is read as its number, at the end or before a dot. */
  lemma NumeralIsRead(head: string, rest: string)
    requires head != "" && forall k | 0 <= k < |head| :: IsDigit(head[k])
    ensures VersionTuple(head) == Some([ParseNat(head)])
    ensures VersionTuple(rest).Some? ==>
              VersionTuple(head + (['.'] + rest)) == Some([ParseNat(head)] + VersionTuple(rest).value)
  {
    assert "" + head == head && head + "" == head;
    DigitsAreRead(head, "", "");
    DigitsAreRead(head, ['.'] + rest, "");
    assert (['.'] + rest)[1..] == rest;
  }

  /** Reading a version gives its components as numbers: every tuple is read back from its
      dotted decimal form, so "2.44" is above "2.9" although it is not as text. */
  lemma {:induction false} RenderIsRead(v: Version)
    requires v != []
    ensures VersionTuple(Render(v)) == Some(v)
  {
    ParseDigits(v[0]);
    if |v| == 1 {
      NumeralIsRead(Digits(v[0]), "");
      assert v == [v[0]];
    } else {
      RenderIsRead(v[1..]);
      NumeralIsRead(Digits(v[0]), Render(v[1..]));
      assert v == [v[0]] + v[1..];
    }
  }

  predicate Above(node: string, ceiling: Version) {
    VersionTuple(node).Some? && Less(ceiling, VersionTuple(node).value)
  }

  function Key(node: string): Version {
    match VersionTuple(node) case Some(v) => v case None => []
  }

  ghost predicate Sorted(nodes: seq<string>) {
    forall i, j | 0 <= i < j < |nodes| :: !Less(Key(nodes[j]), Key(nodes[i]))
  }

  ghost function AboveSet(nodes: set<string>, ceiling: Version): set<string> {
    set n | n in nodes && Above(n, ceiling)
  }

  /** Inserts after every node that is not larger. */
  method Insert(nodes: seq<string>, node: string) returns (longer: seq<string>)
    requires Sorted(nodes)
    ensures Sorted(longer) && multiset(longer) == multiset(nodes) + multiset{node}
  {
    var k := |nodes|;
    while k > 0 && Less(Key(node), Key(nodes[k - 1]))
      invariant 0 <= k <= |nodes| && forall j | k <= j < |nodes| :: Less(Key(node), Key(nodes[j]))
    {
      k := k - 1;
    }
    longer := nodes[..k] + [node] + nodes[k..];
    InsertedOnce(nodes, node, k);
    forall i, j | 0 <= i < j < |longer| ensures !Less(Key(longer[j]), Key(longer[i])) {
      InsertedInOrder(nodes, node, k, i, j);
    }
  }

  lemma InsertedOnce(nodes: seq<string>, node: string, k: nat)
    requires k <= |nodes|
    ensures multiset(nodes[..k] + [node] + nodes[k..]) == multiset(nodes) + multiset{node}
  {
    assert nodes == nodes[..k] + nodes[k..];
  }

  lemma InsertedInOrder(nodes: seq<string>, node: string, k: nat, i: nat, j: nat)
    requires Sorted(nodes) && k <= |nodes| && i < j <= |nodes|
    requires forall m | k <= m < |nodes| :: Less(Key(node), Key(nodes[m]))
    requires k == 0 || !Less(Key(node), Key(nodes[k - 1]))
    ensures var longer := nodes[..k] + [node] + nodes[k..]; !Less(Key(longer[j]), Key(longer[i]))
  {
    if j == k && i < k - 1 {
      AtMostTransitive(Key(nodes[i]), Key(nodes[k - 1]), Key(node));
    } else if i == k {
      LessIsTotal(Key(node), Key(nodes[j - 1]));
    }
  }

  /** The nodes above the ceiling, each once, in ascending version order. */
  method NodesAbove(nodes: set<string>, ceiling: Version) returns (above: seq<string>)
    ensures Sorted(above) && multiset(above) == multiset(AboveSet(nodes, ceiling))
  {
    above := [];
    var left := nodes;
    while left != {}
      invariant left <= nodes && Sorted(above)
      invariant multiset(above) == multiset(AboveSet(nodes - left, ceiling))
      decreases |left|
    {
      var node :| node in left;
      assert nodes - (left - {node}) == (nodes - left) + {node};
      if Above(node, ceiling) {
        above := Insert(above, node);
        assert AboveSet((nodes - left) + {node}, ceiling) == AboveSet(nodes - left, ceiling) + {node};
      } else {
        assert AboveSet((nodes - left) + {node}, ceiling) == AboveSet(nodes - left, ceiling);
      }
      left := left - {node};
    }
    assert nodes - left == nodes;
  }
}
