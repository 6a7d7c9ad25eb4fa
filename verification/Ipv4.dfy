/** IPv4 networks (section 3.1 of RFC 4632): an address, a prefix length, and the comparison
    under the mask that decides membership. Addresses are their 32 bits, highest first. */
module Ipv4 {

  type Addr = a: seq<bool> | |a| == 32 witness seq(32, _ => false)

  type Prefix = p: nat | p <= 32

  function And(a: Addr, b: Addr): Addr {
    seq(32, i requires 0 <= i < 32 => a[i] && b[i])
  }

  /** p ones followed by zeros. */
  function Mask(p: Prefix): Addr {
    seq(32, i => i < p)
  }

  /** What net.ParseCIDR finds in the text: the address as written and the prefix length. */
  datatype Cidr = Cidr(addr: Addr, prefix: Prefix)

  /** net.IPNet */
  datatype Net = Net(base: Addr, prefix: Prefix)

  function NetOf(c: Cidr): Net {
    Net(And(c.addr, Mask(c.prefix)), c.prefix)
  }

  /** IPNet.Contains */
  predicate Contains(net: Net, ip: Addr) {
    And(ip, Mask(net.prefix)) == And(net.base, Mask(net.prefix))
  }

  /** The number an address stands for. */
  function Value(bits: seq<bool>): nat {
    if bits == [] then 0
    else 2 * Value(bits[..|bits| - 1]) + if bits[|bits| - 1] then 1 else 0
  }

  function Pow2(n: nat): nat {
    if n == 0 then 1 else 2 * Pow2(n - 1)
  }

  /** No host bit is set. */
  predicate Aligned(net: Net) {
    forall i :: net.prefix <= i < 32 ==> !net.base[i]
  }

  /** Parsed networks are aligned, and a CIDR is written with the address of its network
      exactly when it has no host bits. */
  lemma NetIsAligned(c: Cidr)
    ensures Aligned(NetOf(c))
    ensures c.addr == NetOf(c).base <==> forall i :: c.prefix <= i < 32 ==> !c.addr[i]
  {
    if forall i :: c.prefix <= i < 32 ==> !c.addr[i] {
      assert forall i :: 0 <= i < 32 ==> c.addr[i] == NetOf(c).base[i];
    } else {
      var i :| c.prefix <= i < 32 && c.addr[i];
      assert !NetOf(c).base[i];
    }
  }

  /** Comparing under the mask is comparing the first bits. */
  lemma ContainsIsPrefix(net: Net, ip: Addr)
    ensures Contains(net, ip) <==> ip[..net.prefix] == net.base[..net.prefix]
  {
    var m := Mask(net.prefix);
    if Contains(net, ip) {
      forall i | 0 <= i < net.prefix ensures ip[i] == net.base[i] {
        assert And(ip, m)[i] == And(net.base, m)[i];
      }
    } else {
      var i :| 0 <= i < 32 && And(ip, m)[i] != And(net.base, m)[i];
      assert ip[..net.prefix][i] != net.base[..net.prefix][i];
    }
  }

  lemma {:induction false} ValueConcat(a: seq<bool>, b: seq<bool>)
    ensures Value(a + b) == Value(a) * Pow2(|b|) + Value(b)
    ensures Value(b) < Pow2(|b|)
  {
    if b == [] {
      assert a + b == a;
    } else {
      var b', bit := b[..|b| - 1], if b[|b| - 1] then 1 else 0;
      assert (a + b)[..|a + b| - 1] == a + b';
      ValueConcat(a, b');
      Doubling(Value(a), Pow2(|b'|));
      assert Value(b) == 2 * Value(b') + bit && Value(a + b) == 2 * Value(a + b') + bit;
    }
  }

  lemma Doubling(x: nat, y: nat)
    ensures x * (2 * y) == 2 * (x * y)
  {
  }

  lemma {:induction false} ValueInjective(a: seq<bool>, b: seq<bool>)
    requires |a| == |b|
    ensures Value(a) == Value(b) <==> a == b
  {
    if a != [] {
      ValueInjective(a[..|a| - 1], b[..|b| - 1]);
      assert a == a[..|a| - 1] + [a[|a| - 1]] && b == b[..|b| - 1] + [b[|b| - 1]];
    }
  }

  lemma {:induction false} ValueOfZeros(bits: seq<bool>)
    requires forall i :: 0 <= i < |bits| ==> !bits[i]
    ensures Value(bits) == 0
  {
    if bits != [] {
      ValueOfZeros(bits[..|bits| - 1]);
    }
  }

  lemma Blocks(x: nat, y: nat, r: nat, size: nat)
    requires r < size
    ensures x == y <==> y * size <= x * size + r < y * size + size
  {
    if x < y {
      assert (x + 1) * size <= y * size;
    } else if x > y {
      assert (y + 1) * size <= x * size;
    }
  }

  /** Membership is an interval of numbers: [base, base + 2^(32 - p)). */
  lemma ContainsIsInterval(net: Net, ip: Addr)
    requires Aligned(net)
    ensures Contains(net, ip) <==> Value(net.base) <= Value(ip) < Value(net.base) + Pow2(32 - net.prefix)
  {
    var p := net.prefix;
    ContainsIsPrefix(net, ip);
    assert ip == ip[..p] + ip[p..] && net.base == net.base[..p] + net.base[p..];
    ValueConcat(ip[..p], ip[p..]);
    ValueConcat(net.base[..p], net.base[p..]);
    ValueOfZeros(net.base[p..]);
    ValueInjective(ip[..p], net.base[..p]);
    Blocks(Value(ip[..p]), Value(net.base[..p]), Value(ip[p..]), Pow2(32 - p));
  }

  ghost predicate Within(n: Net, n': Net) {
    forall ip :: Contains(n, ip) ==> Contains(n', ip)
  }

  ghost predicate Disjoint(n: Net, n': Net) {
    forall ip :: !(Contains(n, ip) && Contains(n', ip))
  }

  /** Two networks are nested or disjoint, and the prefixes say which. */
  lemma NestedOrDisjoint(n: Net, n': Net)
    requires n.prefix >= n'.prefix
    ensures if n.base[..n'.prefix] == n'.base[..n'.prefix] then Within(n, n') else Disjoint(n, n')
  {
    var p := n'.prefix;
    forall ip: Addr
      ensures Contains(n, ip) ==> (Contains(n', ip) <==> n.base[..p] == n'.base[..p])
    {
      ContainsIsPrefix(n, ip);
      ContainsIsPrefix(n', ip);
      assert ip[..n.prefix][..p] == ip[..p] && n.base[..n.prefix][..p] == n.base[..p];
    }
  }
}
