/** The DHCP lease catcher of art/rhevm_api/utils/mac2ip.py: lines reassembled from chunks drive an automaton
  that fills a cache from MAC addresses to IP addresses. */
module LeaseCatcher {
  import opened Helpers
  import opened LeaseStream

  /** What the patterns of `TCPDumpParser` find in a line: which ones match and what they capture.  Nothing
      is assumed about how a line is scanned. */
  datatype Scan = Scan(reply: bool, yourIp: Option<string>, serverIp: bool, gatewayIp: bool,
                       mac: Option<string>, msg: Option<string>)

  datatype St = Unknown | Reply | ClIp | SerIp | GwIp | MacAddr | Msg

  /** The parser's fields and the cache it writes to. */
  datatype Auto = Auto(st: St, ip: string, mac: string, cache: map<string, string>)

  // ---------- Addresses ----------

  function UpperChar(c: char): char { if 'a' <= c <= 'z' then c - ' ' else c }

  function LowerChar(c: char): char { if 'A' <= c <= 'Z' then c + ' ' else c }

  function Upper(s: string): string { seq(|s|, i requires 0 <= i < |s| => UpperChar(s[i])) }

  function Lower(s: string): string { seq(|s|, i requires 0 <= i < |s| => LowerChar(s[i])) }

  /** `str.replace` of one character by another. */
  function ReplaceChar(s: string, old_: char, new_: char): string {
    seq(|s|, i requires 0 <= i < |s| => if s[i] == old_ then new_ else s[i])
  }

  function Unify(mac: string): string { ReplaceChar(Upper(mac), '-', ':') }

  /** A letter of the alphabet and its capital: 32 places apart in ASCII. */
  predicate CapitalOf(big: char, small: char) { 'a' <= small <= 'z' && big as int + 32 == small as int }

  /** The same character, or the same letter in another case. */
  predicate SameLetter(x: char, y: char) { x == y || CapitalOf(x, y) || CapitalOf(y, x) }

  /** Two spellings differ at most in case and in "-" against ":". */
  ghost predicate SameAddress(a: string, b: string) {
    |a| == |b| && forall i :: 0 <= i < |a| ==> SameLetter(a[i], b[i]) || (a[i] in "-:" && b[i] in "-:")
  }

  /** The unified form of an address is a spelling of it without "-" and without small letters; so there is one for all its
    spellings. */
  lemma UnifyExactly(a: string, b: string)
    ensures Unify(a) == Unify(b) <==> SameAddress(a, b)
    ensures SameAddress(a, Unify(a)) && forall c :: c in Unify(a) ==> c != '-' && !('a' <= c <= 'z')
    ensures Unify(Unify(a)) == Unify(a)
  {
    if Unify(a) == Unify(b) {
      assert |a| == |Unify(a)| == |Unify(b)| == |b|;
      forall i | 0 <= i < |a|
        ensures SameLetter(a[i], b[i]) || (a[i] in "-:" && b[i] in "-:")
      {
        assert Unify(a)[i] == Unify(b)[i];
      }
    }
  }

  /** "ack", in small or capital letters. */
  predicate IsAck(s: string) { |s| == 3 && s[0] in "aA" && s[1] in "cC" && s[2] in "kK" }

  lemma AckExactly(s: string)
    ensures Lower(s) == "ack" <==> IsAck(s)
  {
    if IsAck(s) {
      assert Lower(s)[0] == 'a' && Lower(s)[1] == 'c' && Lower(s)[2] == 'k';
    }
    if Lower(s) == "ack" {
      assert |s| == |Lower(s)|;
      assert LowerChar(s[0]) == Lower(s)[0] && LowerChar(s[1]) == Lower(s)[1] && LowerChar(s[2]) == Lower(s)[2];
    }
  }

  // ---------- The automaton ----------

  /** One call of `parse_line`. */
  function Step(a: Auto, s: Scan): Auto {
    match a.st
    case Unknown => if s.reply then a.(st := Reply) else a
    case Reply => if s.yourIp.Some? then a.(st := ClIp, ip := s.yourIp.value) else a.(st := Unknown)
    case ClIp => a.(st := if s.serverIp then SerIp else Unknown)
    case SerIp => if s.gatewayIp then a.(st := GwIp) else ReadMac(a, s)
    case GwIp => ReadMac(a, s)
    case MacAddr => a.(st := Unknown)
    case Msg =>
      if s.msg.None? then a
      else if Lower(s.msg.value) == "ack" then a.(st := Unknown, cache := a.cache[a.mac := a.ip])
      else a.(st := Unknown)
  }

  function ReadMac(a: Auto, s: Scan): Auto {
    if s.mac.Some? then a.(st := Msg, mac := Unify(s.mac.value)) else a.(st := Unknown)
  }

  function Run(a: Auto, scans: seq<Scan>): Auto
    decreases scans
  {
    if scans == [] then a else Run(Step(a, scans[0]), scans[1..])
  }

  lemma {:induction false} RunAppend(a: Auto, xs: seq<Scan>, ys: seq<Scan>)
    ensures Run(a, xs + ys) == Run(Run(a, xs), ys)
    decreases xs
  {
    if xs == [] {
      assert xs + ys == ys;
    } else {
      RunAppend(Step(a, xs[0]), xs[1..], ys);
      assert (xs + ys)[1..] == xs[1..] + ys;
    }
  }

  // ---------- What a lease is, without the automaton ----------

  datatype Lease = Lease(mac: string, ip: string)

  /** Lines `0 .. m` of `scans` record a lease: Reply, Your-IP, Server-IP, an optional Gateway-IP and
      Client-Ethernet-Address on consecutive lines, and the first message line after them says ACK. */
  ghost predicate Records(scans: seq<Scan>, gateway: bool, m: nat) {
    var k := if gateway then 4 else 3;
    && k < m < |scans|
    && scans[0].reply && scans[1].yourIp.Some? && scans[2].serverIp
    && scans[3].gatewayIp == gateway && scans[k].mac.Some?
    && (forall i :: k < i < m ==> scans[i].msg.None?)
    && scans[m].msg.Some? && IsAck(scans[m].msg.value)
  }

  /** Index of the first message line from `k` on, or the number of lines. */
  function FirstMsg(scans: seq<Scan>, k: nat): (m: nat)
    requires k <= |scans|
    ensures k <= m <= |scans|
    ensures forall i :: k <= i < m ==> scans[i].msg.None?
    ensures m < |scans| ==> scans[m].msg.Some?
    decreases |scans| - k
  {
    if k == |scans| || scans[k].msg.Some? then k else FirstMsg(scans, k + 1)
  }

  /** An exchange that starts with the Reply line `scans[0]`: how many lines belong to it, and its lease. */
  datatype Exchange = Exchange(length: nat, lease: Option<Lease>)

  function FirstExchange(scans: seq<Scan>): (e: Exchange)
    requires scans != []
    ensures 1 <= e.length <= |scans|
  {
    if |scans| <= 1 || scans[1].yourIp.None? then Exchange(Min(2, |scans|), None)
    else if |scans| <= 2 || !scans[2].serverIp then Exchange(Min(3, |scans|), None)
    else if |scans| <= 3 then Exchange(3, None)
    else
      var k := if scans[3].gatewayIp then 4 else 3;
      if |scans| <= k || scans[k].mac.None? then Exchange(Min(k + 1, |scans|), None)
      else
        var m := FirstMsg(scans, k + 1);
        if m == |scans| then Exchange(m, None)
        else Exchange(m + 1, if Lower(scans[m].msg.value) == "ack"
                             then Some(Lease(Unify(scans[k].mac.value), scans[1].yourIp.value)) else None)
  }

  function Min(a: nat, b: nat): nat { if a < b then a else b }

  /** The leases of a sequence of lines, exchange by exchange. */
  function Leases(scans: seq<Scan>): seq<Lease> {
    if scans == [] then []
    else if !scans[0].reply then Leases(scans[1..])
    else
      var e := FirstExchange(scans);
      (if e.lease.Some? then [e.lease.value] else []) + Leases(scans[e.length..])
  }

  function Store(cache: map<string, string>, leases: seq<Lease>): map<string, string>
    decreases leases
  {
    if leases == [] then cache else Store(cache[leases[0].mac := leases[0].ip], leases[1..])
  }

  /** An exchange yields a lease exactly when its lines record one, and the lease is made of that
      exchange's own address lines. */
  lemma LeaseExactly(scans: seq<Scan>)
    requires scans != [] && scans[0].reply
    ensures FirstExchange(scans).lease.Some? <==> exists g: bool, m: nat :: Records(scans, g, m)
    ensures forall g: bool, m: nat :: Records(scans, g, m) ==>
              FirstExchange(scans) == Exchange(m + 1, Some(Lease(Unify(scans[if g then 4 else 3].mac.value), scans[1].yourIp.value)))
  {
    forall g: bool, m: nat | Records(scans, g, m)
      ensures FirstExchange(scans) == Exchange(m + 1, Some(Lease(Unify(scans[if g then 4 else 3].mac.value), scans[1].yourIp.value)))
    {
      var k := if g then 4 else 3;
      AckExactly(scans[m].msg.value);
      var f := FirstMsg(scans, k + 1);
      assert f == m;
    }
    var e := FirstExchange(scans);
    if e.lease.Some? {
      AckExactly(scans[e.length - 1].msg.value);
      assert Records(scans, scans[3].gatewayIp, e.length - 1);
    }
  }

  /** Line `i` is what comes at this place of an exchange: after the hardware address any lines may stand before the message. */
  ghost predicate Expected(scans: seq<Scan>, i: nat)
    requires i < |scans|
  {
    if i == 0 then scans[0].reply
    else if i == 1 then scans[1].yourIp.Some?
    else if i == 2 then scans[2].serverIp
    else if i == 3 then scans[3].gatewayIp || scans[3].mac.Some?
    else if i == 4 && scans[3].gatewayIp then scans[4].mac.Some?
    else true
  }

  /** Line `i` is a message behind the hardware address. */
  ghost predicate Closes(scans: seq<Scan>, i: nat)
    requires i < |scans|
  {
    i > 3 && i > (if scans[3].gatewayIp then 4 else 3) && scans[i].msg.Some?
  }

  /** An exchange takes its lines up to the first that is not expected, which it takes along whatever it is, or up to its
    message, or to the end of the input. */
  lemma ExchangeEnds(scans: seq<Scan>)
    requires scans != [] && scans[0].reply
    ensures var n := FirstExchange(scans).length;
            && (forall i :: 0 <= i < n - 1 ==> Expected(scans, i) && !Closes(scans, i))
            && (n == |scans| || !Expected(scans, n - 1) || Closes(scans, n - 1))
  {
  }

  // ---------- The automaton computes exactly the leases ----------

  lemma {:induction false} WaitForMsg(a: Auto, scans: seq<Scan>, k: nat)
    requires a.st == Msg && k <= |scans|
    ensures var m := FirstMsg(scans, k);
            Run(a, scans[k..]) ==
              if m == |scans| then a else Run(Step(a, scans[m]), scans[m + 1..])
    decreases |scans| - k
  {
    if k < |scans| {
      assert scans[k..][0] == scans[k] && scans[k..][1..] == scans[k + 1..];
      if scans[k].msg.None? {
        WaitForMsg(a, scans, k + 1);
      }
    }
  }

  lemma RunOne(a: Auto, scans: seq<Scan>, k: nat)
    requires k < |scans|
    ensures Run(a, scans[k..]) == Run(Step(a, scans[k]), scans[k + 1..])
  {
    assert scans[k..][0] == scans[k] && scans[k..][1..] == scans[k + 1..];
  }

  /** From a Reply line on, the automaton is back in its initial state (or at the end of the input) after
      exactly that exchange, with its lease stored. */
  lemma RunExchange(a: Auto, scans: seq<Scan>) returns (b: Auto)
    requires a.st == Unknown && scans != [] && scans[0].reply
    ensures var e := FirstExchange(scans);
            && Run(a, scans) == Run(b, scans[e.length..])
            && b.cache == (if e.lease.Some? then a.cache[e.lease.value.mac := e.lease.value.ip] else a.cache)
            && (b.st == Unknown || scans[e.length..] == [])
  {
    assert scans == scans[0..];
    RunOne(a, scans, 0);
    b := Step(a, scans[0]);
    if |scans| > 1 {
      RunOne(b, scans, 1);
      b := Step(b, scans[1]);
      if b.st == ClIp && |scans| > 2 {
        RunOne(b, scans, 2);
        b := Step(b, scans[2]);
        if b.st == SerIp && |scans| > 3 {
          b := RunAddress(b, scans);
        }
      }
    }
  }

  lemma RunAddress(a: Auto, scans: seq<Scan>) returns (b: Auto)
    requires a.st == SerIp && |scans| > 3 && scans[0].reply && scans[1].yourIp.Some? && scans[2].serverIp
    requires a.ip == scans[1].yourIp.value
    ensures var e := FirstExchange(scans);
            && Run(a, scans[3..]) == Run(b, scans[e.length..])
            && b.cache == (if e.lease.Some? then a.cache[e.lease.value.mac := e.lease.value.ip] else a.cache)
            && (b.st == Unknown || scans[e.length..] == [])
  {
    if scans[3].gatewayIp {
      b := RunWithGateway(a, scans);
    } else {
      b := RunWithoutGateway(a, scans);
    }
  }

  lemma RunWithGateway(a: Auto, scans: seq<Scan>) returns (b: Auto)
    requires a.st == SerIp && |scans| > 3 && scans[0].reply && scans[1].yourIp.Some? && scans[2].serverIp
    requires a.ip == scans[1].yourIp.value && scans[3].gatewayIp
    ensures var e := FirstExchange(scans);
            && Run(a, scans[3..]) == Run(b, scans[e.length..])
            && b.cache == (if e.lease.Some? then a.cache[e.lease.value.mac := e.lease.value.ip] else a.cache)
            && (b.st == Unknown || scans[e.length..] == [])
  {
    RunOne(a, scans, 3);
    b := Step(a, scans[3]);
    if |scans| > 4 {
      RunOne(b, scans, 4);
      b := Step(b, scans[4]);
      if b.st == Msg {
        b := RunMessage(b, scans, 5);
      }
    }
  }

  lemma RunWithoutGateway(a: Auto, scans: seq<Scan>) returns (b: Auto)
    requires a.st == SerIp && |scans| > 3 && scans[0].reply && scans[1].yourIp.Some? && scans[2].serverIp
    requires a.ip == scans[1].yourIp.value && !scans[3].gatewayIp
    ensures var e := FirstExchange(scans);
            && Run(a, scans[3..]) == Run(b, scans[e.length..])
            && b.cache == (if e.lease.Some? then a.cache[e.lease.value.mac := e.lease.value.ip] else a.cache)
            && (b.st == Unknown || scans[e.length..] == [])
  {
    RunOne(a, scans, 3);
    b := Step(a, scans[3]);
    if b.st == Msg {
      b := RunMessage(b, scans, 4);
    }
  }

  lemma RunMessage(a: Auto, scans: seq<Scan>, k: nat) returns (b: Auto)
    requires a.st == Msg && k <= |scans|
    ensures var m := FirstMsg(scans, k);
            && Run(a, scans[k..]) == Run(b, scans[if m == |scans| then m else m + 1..])
            && b == (if m == |scans| then a else Step(a, scans[m]))
  {
    WaitForMsg(a, scans, k);
    var m := FirstMsg(scans, k);
    b := if m == |scans| then a else Step(a, scans[m]);
    assert scans[|scans|..] == [];
  }

  /** Over every line sequence the cache is written exactly with the leases, in order. */
  lemma {:induction false} RunStoresLeases(a: Auto, scans: seq<Scan>)
    requires a.st == Unknown
    ensures Run(a, scans).cache == Store(a.cache, Leases(scans))
    decreases |scans|
  {
    if scans != [] {
      if !scans[0].reply {
        RunStoresLeases(a, scans[1..]);
      } else {
        var e := FirstExchange(scans);
        var b := RunExchange(a, scans);
        if e.lease.Some? {
          assert ([e.lease.value] + Leases(scans[e.length..]))[1..] == Leases(scans[e.length..]);
        } else {
          assert [] + Leases(scans[e.length..]) == Leases(scans[e.length..]);
        }
        if b.st == Unknown {
          RunStoresLeases(b, scans[e.length..]);
        }
      }
    }
  }

  lemma {:induction false} MacAddrNeverReached(a: Auto, scans: seq<Scan>)
    requires a.st != MacAddr
    ensures Run(a, scans).st != MacAddr
    decreases scans
  {
    if scans != [] {
      MacAddrNeverReached(Step(a, scans[0]), scans[1..]);
    }
  }

  // ---------- Looking an address up ----------

  /** The IP of the last lease for a key. */
  function LastIp(leases: seq<Lease>, key: string): Option<string>
    decreases |leases|
  {
    if leases == [] then None
    else if leases[|leases| - 1].mac == key then Some(leases[|leases| - 1].ip)
    else LastIp(leases[..|leases| - 1], key)
  }

  function GetIp(cache: map<string, string>, mac: string): Option<string> {
    if Unify(mac) in cache then Some(cache[Unify(mac)]) else None
  }

  lemma {:induction false} StoreLast(cache: map<string, string>, leases: seq<Lease>)
    requires leases != []
    ensures var n := |leases| - 1;
            Store(cache, leases) == Store(cache, leases[..n])[leases[n].mac := leases[n].ip]
    decreases leases
  {
    var n := |leases| - 1;
    if n > 0 {
      StoreLast(cache[leases[0].mac := leases[0].ip], leases[1..]);
      assert leases[..n][1..] == leases[1..][..n - 1];
    } else {
      assert leases[..0] == [] && leases[1..] == [];
    }
  }

  lemma {:induction false} StoredIsLast(cache: map<string, string>, leases: seq<Lease>, mac: string)
    ensures GetIp(Store(cache, leases), mac) ==
              if LastIp(leases, Unify(mac)).Some? then LastIp(leases, Unify(mac)) else GetIp(cache, mac)
    decreases |leases|
  {
    if leases != [] {
      StoreLast(cache, leases);
      StoredIsLast(cache, leases[..|leases| - 1], mac);
    }
  }

  lemma {:induction false} LeasesNormalised(scans: seq<Scan>)
    ensures forall l :: l in Leases(scans) ==> Unify(l.mac) == l.mac
    decreases |scans|
  {
    if scans != [] {
      if !scans[0].reply {
        LeasesNormalised(scans[1..]);
      } else {
        var e := FirstExchange(scans);
        LeasesNormalised(scans[e.length..]);
        if e.lease.Some? {
          var k := if scans[3].gatewayIp then 4 else 3;
          UnifyExactly(scans[k].mac.value, scans[k].mac.value);
        }
      }
    }
  }

  // ---------- The classes ----------

  class Cache {
    var entries: map<string, string>

    constructor ()
      ensures entries == map[]
    {
      entries := map[];
    }
  }

  class TCPDumpParser {
    const scan: string -> Scan
    const c: Cache
    var st: St
    var ip: string
    var mac: string

    constructor (scan: string -> Scan, cache: Cache)
      ensures this.scan == scan && c == cache && st == Unknown
    {
      this.scan, this.c, this.st, this.ip, this.mac := scan, cache, Unknown, "", "";
    }

    function Snapshot(): Auto
      reads this, c
    {
      Auto(st, ip, mac, c.entries)
    }

    method ParseLine(line: string)
      modifies this, c
      ensures Snapshot() == Step(old(Snapshot()), scan(line))
    {
      var s := scan(line);
      if st == Unknown {
        if s.reply {
          st := Reply;
          return;
        }
      } else if st == Reply {
        if s.yourIp.Some? {
          ip := s.yourIp.value;
          st := ClIp;
          return;
        }
      } else if st == ClIp {
        if s.serverIp {
          st := SerIp;
          return;
        }
      } else if st == SerIp {
        if s.gatewayIp {
          st := GwIp;
          return;
        }
        var found := ReadMacLine(s);
        if found {
          return;
        }
      } else if st == GwIp {
        var found := ReadMacLine(s);
        if found {
          return;
        }
      } else if st == Msg {
        if s.msg.Some? {
          if Lower(s.msg.value) == "ack" {
            c.entries := c.entries[mac := ip];
          }
        } else {
          return;
        }
      }
      st := Unknown;
    }

    method ReadMacLine(s: Scan) returns (found: bool)
      modifies this`mac, this`st
      ensures found == s.mac.Some?
      ensures found ==> mac == Unify(s.mac.value) && st == Msg
      ensures !found ==> mac == old(mac) && st == old(st)
    {
      found := s.mac.Some?;
      if found {
        mac := Unify(s.mac.value);
        st := Msg;
      }
    }
  }

  function ScanAll(scan: string -> Scan, lines: seq<string>): seq<Scan> {
    seq(|lines|, i requires 0 <= i < |lines| => scan(lines[i]))
  }

  lemma RunLines(a: Auto, scan: string -> Scan, xs: seq<string>, ys: seq<string>)
    ensures Run(a, ScanAll(scan, xs + ys)) == Run(Run(a, ScanAll(scan, xs)), ScanAll(scan, ys))
  {
    assert ScanAll(scan, xs + ys) == ScanAll(scan, xs) + ScanAll(scan, ys);
    RunAppend(a, ScanAll(scan, xs), ScanAll(scan, ys));
  }

  lemma RunOneMore(a: Auto, scan: string -> Scan, lines: seq<string>, i: nat)
    requires i < |lines|
    ensures Run(a, ScanAll(scan, lines[..i + 1])) == Step(Run(a, ScanAll(scan, lines[..i])), scan(lines[i]))
  {
    assert lines[..i + 1] == lines[..i] + [lines[i]];
    RunLines(a, scan, lines[..i], [lines[i]]);
    assert ScanAll(scan, [lines[i]]) == [scan(lines[i])];
    assert [scan(lines[i])][1..] == [];
  }

  lemma ConcatOneMore(chunks: seq<string>, i: nat)
    requires i < |chunks|
    ensures Concat(chunks[..i + 1]) == Concat(chunks[..i]) + chunks[i]
  {
    assert chunks[..i + 1] == chunks[..i] + [chunks[i]];
    ConcatAppend(chunks[..i], chunks[i]);
  }

  /** Parsing what was kept of `text` together with `chunk` is parsing the longer text. */
  lemma RunMoreText(a: Auto, scan: string -> Scan, text: string, chunk: string)
    ensures var next := Cut(Cut(text).tail + chunk);
            && Run(Run(a, ScanAll(scan, Cut(text).lines)), ScanAll(scan, next.lines)) == Run(a, ScanAll(scan, Cut(text + chunk).lines))
            && next.tail == Cut(text + chunk).tail
  {
    CutAppend(text, chunk);
    RunLines(a, scan, Cut(text).lines, Cut(Cut(text).tail + chunk).lines);
  }

  class SSHProducer {
    const p: TCPDumpParser
    var out: string

    constructor (p: TCPDumpParser)
      ensures this.p == p && out == ""
    {
      this.p, out := p, "";
    }

    method Parse()
      modifies this, p, p.c
      ensures out == Cut(old(out)).tail
      ensures p.Snapshot() == Run(old(p.Snapshot()), ScanAll(p.scan, Cut(old(out)).lines))
    {
      var data := SplitLines(out);
      if data == [] {
        return;
      }
      CutFromSplit(out);
      ghost var cutting := Cut(out);
      if EndsWithNewline(data[|data| - 1]) {
        out := "";
      } else {
        data, out := data[..|data| - 1], data[|data| - 1];
      }
      for i := 0 to |data|
        invariant p.Snapshot() == Run(old(p.Snapshot()), ScanAll(p.scan, data[..i]))
        invariant out == cutting.tail
      {
        p.ParseLine(data[i]);
        RunOneMore(old(p.Snapshot()), p.scan, data, i);
      }
      assert data[..|data|] == data;
    }

    /** The reading loop of `collecting`, for the chunks that arrive. */
    method Collect(chunks: seq<string>)
      requires out == ""
      modifies this, p, p.c
      ensures out == Cut(Concat(chunks)).tail
      ensures p.Snapshot() == Run(old(p.Snapshot()), ScanAll(p.scan, Cut(Concat(chunks)).lines))
    {
      for i := 0 to |chunks|
        invariant out == Cut(Concat(chunks[..i])).tail
        invariant p.Snapshot() == Run(old(p.Snapshot()), ScanAll(p.scan, Cut(Concat(chunks[..i])).lines))
      {
        out := out + chunks[i];
        Parse();
        RunMoreText(old(p.Snapshot()), p.scan, Concat(chunks[..i]), chunks[i]);
        ConcatOneMore(chunks, i);
      }
      assert chunks[..|chunks|] == chunks;
    }
  }

  /** A parser and a producer on a fresh connection: whatever the chunks are, an address is looked up, in any
      spelling, as the IP of the last lease that the whole stream records for it. */
  method CatchAndLookUp(scan: string -> Scan, cache: Cache, chunks: seq<string>, mac: string) returns (ip: Option<string>)
    modifies cache
    ensures var leases := Leases(ScanAll(scan, Cut(Concat(chunks)).lines));
            && cache.entries == Store(old(cache.entries), leases)
            && ip == (if LastIp(leases, Unify(mac)).Some? then LastIp(leases, Unify(mac)) else old(GetIp(cache.entries, mac)))
    ensures forall lines, tail :: IsCutting(Concat(chunks), lines, tail) ==>
              cache.entries == Store(old(cache.entries), Leases(ScanAll(scan, lines)))
  {
    var parser := new TCPDumpParser(scan, cache);
    var producer := new SSHProducer(parser);
    ghost var before := parser.Snapshot();
    producer.Collect(chunks);
    ghost var scans := ScanAll(scan, Cut(Concat(chunks)).lines);
    RunStoresLeases(before, scans);
    StoredIsLast(before.cache, Leases(scans), mac);
    ip := GetIp(cache.entries, mac);
    forall lines, tail | IsCutting(Concat(chunks), lines, tail)
      ensures Cut(Concat(chunks)).lines == lines
    {
      CutExactly(Concat(chunks), lines, tail);
    }
  }
}
