/**
  The server's per-IP limiter: a connection is refused when its IP already
  holds more than 10 sockets, or when it made more than 5 requests in the
  current one-minute window. Every request is counted, refused or not.
 */
module Limiter {
  import opened Types
  import opened Text

  const MaxIpConnections := 10
  const MaxIpRequestsPerMinute := 5

  /**
    What the limiter reads of a socket's handshake: the `x-forwarded-for`
    header and the peer address, each `None` when it is not a string.
   */
  datatype Handshake = Handshake(forwardedFor: Option<string>, address: Option<string>)

  datatype Decision = Decision(blocked: bool, requests: map<string, nat>)

  /** The client IP: the first entry of `x-forwarded-for`, trimmed, else the peer address. */
  function SocketIp(h: Handshake): (ip: Option<string>)
    ensures h.forwardedFor.Some? ==> ip.Some? && ',' !in ip.value
    ensures h.forwardedFor.Some? ==> ip.value == Trim(Before(h.forwardedFor.value, ','))
    ensures h.forwardedFor.None? ==> ip == h.address
  {
    if h.forwardedFor.Some? then
      var first := Before(h.forwardedFor.value, ',');
      var ip := Trim(first);
      TrimKeepsOut(first, ip, ',');
      Some(ip)
    else h.address
  }

  lemma TrimKeepsOut(s: string, t: string, c: char)
    requires c !in s && t == Trim(s)
    ensures c !in t
  {
    var i :| SliceWithin(s, t, i);
    forall k | 0 <= k < |t| ensures t[k] != c {
      assert t[k] == s[i + k];
    }
  }

  /** Reference count: how many sockets have `ip` as their client IP. */
  function CountIp(sockets: seq<Handshake>, ip: string): nat {
    if |sockets| == 0 then 0
    else CountIp(sockets[..|sockets| - 1], ip) + (if SocketIp(sockets[|sockets| - 1]) == Some(ip) then 1 else 0)
  }

  /** The per-IP socket counts, built socket by socket; IPs that are missing or empty are skipped. */
  function ConnectionCounts(sockets: seq<Handshake>): (counts: map<string, nat>)
    ensures forall ip :: ip in counts <==> ip != "" && CountIp(sockets, ip) > 0
    ensures forall ip :: ip in counts ==> counts[ip] == CountIp(sockets, ip)
  {
    if |sockets| == 0 then map[]
    else
      var counts := ConnectionCounts(sockets[..|sockets| - 1]);
      var ip := SocketIp(sockets[|sockets| - 1]);
      if ip.Some? && ip.value != "" then
        counts[ip.value := (if ip.value in counts then counts[ip.value] else 0) + 1]
      else counts
  }

  function Lookup(m: map<string, nat>, key: string): nat {
    if key in m then m[key] else 0
  }

  /** `ipCounts[ip] || 0`: the number of sockets from `ip`, and 0 for the empty IP. */
  function Connections(sockets: seq<Handshake>, ip: string): (n: nat)
    ensures n == if ip == "" then 0 else CountIp(sockets, ip)
  {
    Lookup(ConnectionCounts(sockets), ip)
  }

  /**
    A new connection from `current` while `sockets` are open (itself
    included) and `requests` were counted in this window.
   */
  function ClientBlocked(sockets: seq<Handshake>, current: Handshake, requests: map<string, nat>): (d: Decision)
    ensures SocketIp(current).None? ==> !d.blocked && d.requests == requests
    ensures SocketIp(current).Some? ==>
      var ip := SocketIp(current).value;
      && d.requests == requests[ip := Lookup(requests, ip) + 1]
      && (d.blocked <==> (ip != "" && CountIp(sockets, ip) > MaxIpConnections)
                         || Lookup(requests, ip) > MaxIpRequestsPerMinute)
  {
    var ip := SocketIp(current);
    if ip.None? then Decision(false, requests)
    else CheckIp(sockets, ip.value, requests)
  }

  /** The decision for a known client IP: count the request, then apply both limits. */
  function CheckIp(sockets: seq<Handshake>, ip: string, requests: map<string, nat>): (d: Decision)
    ensures d.requests == requests[ip := Lookup(requests, ip) + 1]
    ensures d.blocked <==> (ip != "" && CountIp(sockets, ip) > MaxIpConnections)
                           || Lookup(requests, ip) > MaxIpRequestsPerMinute
  {
    var connections := Connections(sockets, ip);
    var prior := Lookup(requests, ip);
    var requests' := requests[ip := prior + 1];
    if connections > MaxIpConnections then Decision(true, requests')
    else if prior > MaxIpRequestsPerMinute then Decision(true, requests')
    else Decision(false, requests')
  }

  /** The once-a-minute reset of the request counts. */
  const FreshWindow: map<string, nat> := map[]

  /** The request counts after `n` connection attempts from `current`. */
  function RequestsAfter(sockets: seq<Handshake>, current: Handshake, requests: map<string, nat>, n: nat): map<string, nat>
    decreases n
  {
    if n == 0 then requests
    else ClientBlocked(sockets, current, RequestsAfter(sockets, current, requests, n - 1)).requests
  }

  lemma {:induction false} AttemptsAreCounted(sockets: seq<Handshake>, current: Handshake, n: nat)
    requires SocketIp(current).Some?
    ensures Lookup(RequestsAfter(sockets, current, FreshWindow, n), SocketIp(current).value) == n
    decreases n
  {
    if n > 0 {
      var ip := SocketIp(current).value;
      var prev := RequestsAfter(sockets, current, FreshWindow, n - 1);
      AttemptsAreCounted(sockets, current, n - 1);
      assert RequestsAfter(sockets, current, FreshWindow, n) == prev[ip := Lookup(prev, ip) + 1];
    }
  }

  /**
    Within one window, a client that holds at most 10 sockets has its first
    six attempts accepted and every later one refused.
   */
  lemma SeventhAttemptIsRefused(sockets: seq<Handshake>, current: Handshake, n: nat)
    requires SocketIp(current).Some?
    requires CountIp(sockets, SocketIp(current).value) <= MaxIpConnections
    ensures ClientBlocked(sockets, current, RequestsAfter(sockets, current, FreshWindow, n)).blocked <==> n >= 6
  {
    AttemptsAreCounted(sockets, current, n);
  }

  /** Only the first comma-separated entry of the header counts, without its spaces. */
  lemma ForwardedChainUsesFirstHop()
    ensures SocketIp(Handshake(Some(" 1.2.3.4 , 10.0.0.1"), Some("10.0.0.1"))) == Some("1.2.3.4")
  {
    FirstEntryOfChain();
    FirstEntryTrimmed();
  }

  lemma FirstEntryOfChain()
    ensures Before(" 1.2.3.4 , 10.0.0.1", ',') == " 1.2.3.4 "
  {
    var header := " 1.2.3.4 , 10.0.0.1";
    assert header[9] == ',' && ',' !in header[..9];
    BeforeIsUnique(header, ',', 9);
  }

  lemma FirstEntryTrimmed()
    ensures Trim(" 1.2.3.4 ") == "1.2.3.4"
  {
    var first := " 1.2.3.4 ";
    assert first[1..8] == "1.2.3.4";
    assert SliceWithin(first, "1.2.3.4", 1);
    TrimIsUnique(first, "1.2.3.4", 1);
  }
}
