/** The targets of node-to-node calls, printed and parsed. */
module HostPorts {
  import opened Outcomes

  const DIGITS := "0123456789"

  function Decimal(n: nat): (s: string)
    ensures s != [] && forall c | c in s :: c in DIGITS
  {
    if n < 10 then [DIGITS[n]] else Decimal(n / 10) + [DIGITS[n % 10]]
  }

  function DigitValue(c: char): (v: nat)
    requires c in DIGITS
    ensures v < 10 && DIGITS[v] == c
  {
    c as int - '0' as int
  }

  /** int(s), on digits. */
  function ParseDecimal(s: string): Option<nat> {
    if s == [] || s[|s| - 1] !in DIGITS then None
    else if |s| == 1 then Some(DigitValue(s[0]))
    else
      var front := ParseDecimal(s[..|s| - 1]);
      if front.None? then None else Some(10 * front.value + DigitValue(s[|s| - 1]))
  }

  lemma {:induction false} DecimalRoundTrip(n: nat)
    ensures ParseDecimal(Decimal(n)) == Some(n)
  {
    if n >= 10 {
      DecimalRoundTrip(n / 10);
      var s := Decimal(n);
      assert s[..|s| - 1] == Decimal(n / 10);
      assert |s| > 1 && s[|s| - 1] == DIGITS[n % 10];
      assert DigitValue(s[|s| - 1]) == n % 10;
    } else {
      assert DigitValue(DIGITS[n]) == n;
    }
  }

  /** Ports are printed in base ten, the last digit as the least significant. */
  lemma PrintsInTens(tens: nat, digit: nat)
    requires digit <= 9
    ensures Decimal(10 * tens + digit) ==
              (if tens == 0 then [] else Decimal(tens)) + ["0123456789"[digit]]
  {
    assert (10 * tens + digit) / 10 == tens && (10 * tens + digit) % 10 == digit;
  }

  /** The characters of a dotted quad. */
  predicate Dotted(s: string) {
    s != [] && forall c | c in s :: c in DIGITS || c == '.'
  }

  /** ipaddress.ip_address: which strings are addresses, and of which version. */
  datatype Addresses = Addresses(v4: string -> bool, v6: string -> bool) {
    /** All that matters of the grammar: a version 4 address is made of digits and dots. */
    ghost predicate Ok() {
      forall s :: v4(s) ==> Dotted(s)
    }

    predicate Valid(s: string) {
      v4(s) || v6(s)
    }

    /** A version 6 address goes in brackets, as a host does in section 3.2.2 of RFC 3986. */
    function Build(address: string, port: nat): string
      requires Valid(address)
    {
      (if v4(address) then address else "[" + address + "]") + ":" + Decimal(port)
    }

    /** The parts before and after the last colon; without brackets around the host; None for a ValueError. */
    function Extract(target: string): Option<(string, nat)> {
      var (host, port) := Partition(target);
      var address := Unbracketed(host);
      if !Valid(address) || ParseDecimal(port).None? then None else Some((address, ParseDecimal(port).value))
    }

    /** A built target is read back exactly, whatever a version 6 address contains. */
    lemma ExtractBuilt(address: string, port: nat)
      requires Ok() && Valid(address)
      ensures Extract(Build(address, port)) == Some((address, port))
    {
      var host := if v4(address) then address else "[" + address + "]";
      PartitionAtLast(host, Decimal(port));
      assert Build(address, port) == host + ":" + Decimal(port);
      DecimalRoundTrip(port);
      assert Unbracketed(host) == address by {
        if v4(address) {
          assert Dotted(address) && address[0] in address;
        } else {
          assert host[1..|host| - 1] == address;
        }
      }
    }

    /** What the last colon separates: the port, and the address, in brackets exactly if it is not of version 4. */
    lemma BuiltForm(address: string, port: nat)
      requires Valid(address)
      ensures Partition(Build(address, port)) ==
                (if v4(address) then address else "[" + address + "]", Decimal(port))
    {
      PartitionAtLast(if v4(address) then address else "[" + address + "]", Decimal(port));
    }

    /** So two addresses never share a target. */
    lemma TargetsDiffer(a: string, b: string, port: nat)
      requires Ok() && Valid(a) && Valid(b) && a != b
      ensures Build(a, port) != Build(b, port)
    {
      ExtractBuilt(a, port);
      ExtractBuilt(b, port);
    }
  }

  /** From an address to its target, unless it is malformed, and back. */
  datatype Codec = Codec(build: string -> Option<string>, extract: string -> Option<string>) {
    ghost predicate RoundTrips() {
      forall a :: build(a).Some? ==> extract(build(a).value) == Some(a)
    }
  }

  /** How the cache makes a target of an address, with the port of the internal service, and reads it back. */
  function HostPort(addresses: Addresses, port: nat): Codec {
    Codec(a => if addresses.Valid(a) then Some(addresses.Build(a, port)) else None,
          t => var e := addresses.Extract(t); if e.Some? then Some(e.value.0) else None)
  }

  lemma HostPortRoundTrips(addresses: Addresses, port: nat)
    requires addresses.Ok()
    ensures HostPort(addresses, port).RoundTrips()
  {
    forall a | addresses.Valid(a)
      ensures HostPort(addresses, port).extract(addresses.Build(a, port)) == Some(a)
    {
      addresses.ExtractBuilt(a, port);
    }
  }

  /** There is a target exactly for an address, and it leads to that address and to the port of the service. */
  lemma HostPortLeads(addresses: Addresses, port: nat, a: string)
    requires addresses.Ok()
    ensures var target := HostPort(addresses, port).build(a);
            && (target.Some? <==> addresses.v4(a) || addresses.v6(a))
            && (target.Some? ==> addresses.Extract(target.value) == Some((a, port)))
  {
    if addresses.Valid(a) {
      addresses.ExtractBuilt(a, port);
    }
  }

  function Unbracketed(host: string): string {
    if host != [] && host[0] == '[' && host[|host| - 1] == ']' then host[1..|host| - 1] else host
  }

  /** rpartition(":"). */
  function Partition(s: string): (string, string) {
    if s == [] then ([], [])
    else if s[|s| - 1] == ':' then (s[..|s| - 1], [])
    else
      var (before, after) := Partition(s[..|s| - 1]);
      (before, after + [s[|s| - 1]])
  }

  lemma {:induction false} PartitionAtLast(host: string, port: string)
    requires ':' !in port
    ensures Partition(host + ":" + port) == (host, port)
  {
    var s := host + ":" + port;
    if port == [] {
      assert s[..|s| - 1] == host;
    } else {
      var front := port[..|port| - 1];
      assert s[..|s| - 1] == host + ":" + front;
      assert s[|s| - 1] == port[|port| - 1] && port[|port| - 1] in port;
      PartitionAtLast(host, front);
      assert front + [port[|port| - 1]] == port;
    }
  }
}
