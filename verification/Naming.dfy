/** Names built from a base and a number: socket paths, registered pool buffers, barrier keys. */
module Naming {
  import StoreBarrier

  function Digit(d: nat): char
    requires d < 10
  {
    (d as char) + '0'
  }

  predicate IsDigit(c: char)
  {
    '0' <= c <= '9'
  }

  /** The decimal notation of a number, as string formatting writes it. */
  function Decimal(n: nat): (s: string)
    ensures s != [] && forall i :: 0 <= i < |s| ==> IsDigit(s[i])
  {
    if n < 10 then [Digit(n)] else Decimal(n / 10) + [Digit(n % 10)]
  }

  /** The number that a string of digits denotes. */
  function Value(s: string): nat
    requires forall i :: 0 <= i < |s| ==> IsDigit(s[i])
  {
    if s == [] then 0
    else
      assert IsDigit(s[|s| - 1]);
      10 * Value(s[..|s| - 1]) + (s[|s| - 1] - '0') as nat
  }

  /** Reading the notation gives the number back, and there are no leading zeros. */
  lemma {:induction false} DecimalDenotes(n: nat)
    ensures Value(Decimal(n)) == n
    ensures n > 0 ==> Decimal(n)[0] != '0'
  {
    if n >= 10 {
      DecimalDenotes(n / 10);
      assert Decimal(n)[..|Decimal(n)| - 1] == Decimal(n / 10);
    }
  }

  lemma {:induction false} DecimalIsInjective(m: nat, n: nat)
    requires Decimal(m) == Decimal(n)
    ensures m == n
  {
    DecimalDenotes(m);
    DecimalDenotes(n);
  }

  /** A base, a separator and a number. */
  function Numbered(base: string, sep: char, n: nat): string
  {
    base + [sep] + Decimal(n)
  }

  /** The separator in front of the number is the last one, so base and number can be recovered. */
  lemma {:induction false} NumberedIsInjective(a: string, m: nat, b: string, n: nat, sep: char)
    requires Numbered(a, sep, m) == Numbered(b, sep, n) && !IsDigit(sep)
    ensures a == b && m == n
  {
    var s := Numbered(a, sep, m);
    SeparatorComesLast(a, m, b, n, sep);
    SeparatorComesLast(b, n, a, m, sep);
    assert s[..|a|] == a && s[..|b|] == b;
    assert s[|a| + 1..] == Decimal(m) && s[|b| + 1..] == Decimal(n);
    DecimalIsInjective(m, n);
  }

  lemma {:induction false} CharOf(base: string, sep: char, n: nat, i: nat)
    requires |base| <= i < |Numbered(base, sep, n)|
    ensures if i == |base| then Numbered(base, sep, n)[i] == sep else IsDigit(Numbered(base, sep, n)[i])
  {
    if i > |base| {
      assert Numbered(base, sep, n)[i] == Decimal(n)[i - |base| - 1];
    }
  }

  lemma {:induction false} NumberedLength(base: string, sep: char, n: nat)
    ensures |Numbered(base, sep, n)| > |base|
  {
  }

  lemma {:induction false} SeparatorComesLast(a: string, m: nat, b: string, n: nat, sep: char)
    requires Numbered(a, sep, m) == Numbered(b, sep, n) && !IsDigit(sep)
    ensures |a| <= |b|
  {
    hide Numbered;
    NumberedLength(a, sep, m);
    if |a| > |b| {
      CharOf(a, sep, m, |a|);
      CharOf(b, sep, n, |a|);
    }
  }

  // ----- the names in use

  const SOCKET_PREFIX := "ipc://@checkpoint-engine-"

  /** The address that `_bind_zmq_socket` computes for a device. */
  function SocketPath(uuid: string, counter: nat): string
  {
    SOCKET_PREFIX + Numbered(uuid, '-', counter) + ".sock"
  }

  lemma {:induction false} SocketPathIsInjective(uuid: string, m: nat, other: string, n: nat)
    requires SocketPath(uuid, m) == SocketPath(other, n)
    ensures uuid == other && m == n
  {
    StripBoth(SOCKET_PREFIX, Numbered(uuid, '-', m), Numbered(other, '-', n), ".sock");
    NumberedIsInjective(uuid, m, other, n, '-');
  }

  lemma {:induction false} StripBoth(prefix: string, a: string, b: string, suffix: string)
    requires prefix + a + suffix == prefix + b + suffix
    ensures a == b
  {
    var s, t := prefix + a + suffix, prefix + b + suffix;
    assert |s| == |t|;
    assert s[|prefix|..|prefix| + |a|] == a && t[|prefix|..|prefix| + |b|] == b;
  }

  const POOL_PREFIX := "memory_pool_"

  /** The name under which buffer `idx` of a pool is registered. */
  function PoolName(pool: string, idx: nat): string
  {
    POOL_PREFIX + Numbered(pool, '_', idx)
  }

  lemma {:induction false} PoolNameIsInjective(pool: string, m: nat, other: string, n: nat)
    requires PoolName(pool, m) == PoolName(other, n)
    ensures pool == other && m == n
  {
    assert PoolName(pool, m) == POOL_PREFIX + Numbered(pool, '_', m) + "";
    assert PoolName(other, n) == POOL_PREFIX + Numbered(other, '_', n) + "";
    StripBoth(POOL_PREFIX, Numbered(pool, '_', m), Numbered(other, '_', n), "");
    NumberedIsInjective(pool, m, other, n, '_');
  }

  const BARRIER_BASE := "parameter_server_barrier"

  /** The string in the store for a key of the barrier; `prefix` belongs to the torch helper. */
  function KeyName(prefix: string, k: StoreBarrier.Key): string
  {
    prefix + ":" + Numbered(BARRIER_BASE, '-', k.gen) + if k.Counter? then "" else ":last_worker"
  }

  lemma {:induction false} LastChar(s: string, n: nat)
    ensures var t := s + Numbered(BARRIER_BASE, '-', n); IsDigit(t[|t| - 1])
  {
    var t := s + Numbered(BARRIER_BASE, '-', n);
    assert t[|t| - 1] == Decimal(n)[|Decimal(n)| - 1];
  }

  lemma {:induction false} LastWorkerEndsOtherwise(s: string, k: StoreBarrier.Key)
    ensures KeyName(s, k) != "" && (IsDigit(KeyName(s, k)[|KeyName(s, k)| - 1]) <==> k.Counter?)
  {
    LastChar(s + ":", k.gen);
  }

  /** Different generations, and the two keys of one generation, never share a string. */
  lemma {:induction false} KeyNameIsInjective(prefix: string, k: StoreBarrier.Key, l: StoreBarrier.Key)
    requires KeyName(prefix, k) == KeyName(prefix, l)
    ensures k == l
  {
    LastWorkerEndsOtherwise(prefix, k);
    LastWorkerEndsOtherwise(prefix, l);
    var suffix := if k.Counter? then "" else ":last_worker";
    StripBoth(prefix + ":", Numbered(BARRIER_BASE, '-', k.gen), Numbered(BARRIER_BASE, '-', l.gen), suffix);
    NumberedIsInjective(BARRIER_BASE, k.gen, BARRIER_BASE, l.gen, '-');
  }
}
