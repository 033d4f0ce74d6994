/** The Rio package of lab10/csapp.c: buffered and unbuffered transfers over a kernel that
    may interrupt, shorten or fail them. */
module Rio {
  import opened Words

  const RIO_BUFSIZE: nat := 8192
  const NEWLINE: Byte := 10

  function Min(x: nat, y: nat): nat { if x < y then x else y }

  // ----- the kernel

  /** What the next system calls do: transfer some of what they could, return EINTR, fail,
      or, a write only, transfer nothing and leave in errno what is there, EINTR or not;
      once the list is used up they transfer all they can. */
  datatype Event = Short(n: nat) | Interrupt | Fail | Nothing(eintr: bool)

  /** How many bytes move when at most k of `avail` could. */
  function Moved(n: nat, k: nat, avail: nat): (m: nat)
    ensures m <= k && m <= avail
    ensures k > 0 && avail > 0 ==> m > 0
  {
    var most := Min(k, avail);
    if most == 0 then 0 else 1 + Min(n, most - 1)
  }

  class Kernel {
    var stream: seq<Byte>    // what is left to read
    var written: seq<Byte>
    var events: seq<Event>

    constructor (stream: seq<Byte>, events: seq<Event>)
      ensures this.stream == stream && this.events == events && written == []
    {
      this.stream, this.events, this.written := stream, events, [];
    }

    /** read(2): the bytes, and -1 for an error with eintr telling which. */
    method Read(k: nat) returns (r: int, data: seq<Byte>, eintr: bool)
      modifies `stream, `events
      ensures events == old(events)[Min(1, |old(events)|)..]
      ensures r < 0 ==> r == -1 && stream == old(stream) && |events| < |old(events)|
      ensures r < 0 && !eintr ==> Fail in old(events)
      ensures r >= 0 ==> r == |data| <= k && data + stream == old(stream)
      ensures r == 0 ==> k == 0 || old(stream) == []
    {
      var n := k;
      if events != [] {
        var e := events[0];
        events := events[1..];
        if e.Interrupt? { return -1, [], true; }
        if e.Fail? { return -1, [], false; }
        n := if e.Short? then e.n else 0;
      }
      var m := Moved(n, k, |stream|);
      data := stream[..m];
      stream := stream[m..];
      return m, data, false;
    }

    /** write(2) of at least one byte, and whether errno is EINTR when it returns none. */
    method Write(data: seq<Byte>) returns (r: int, eintr: bool)
      requires data != []
      modifies `written, `events
      ensures events == old(events)[Min(1, |old(events)|)..]
      ensures r <= 0 ==> written == old(written) && |events| < |old(events)|
      ensures r <= 0 && !eintr ==> Fail in old(events) || Nothing(false) in old(events)
      ensures r > 0 ==> r <= |data| && written == old(written) + data[..r]
    {
      var n := |data|;
      if events != [] {
        var e := events[0];
        events := events[1..];
        if e.Interrupt? { return -1, true; }
        if e.Fail? { return -1, false; }
        if e.Nothing? { return 0, e.eintr; }
        n := e.n;
      }
      var m := Moved(n, |data|, |data|);
      written := written + data[..m];
      return m, false;
    }
  }

  /** Copies bytes into a buffer. */
  method CopyIn(buf: array<Byte>, at: nat, data: seq<Byte>)
    requires at + |data| <= buf.Length
    modifies buf
    ensures buf[..] == Patch(old(buf[..]), at, data)
  {
    for i := 0 to |data|
      invariant buf[..] == Patch(old(buf[..]), at, data[..i])
    {
      PatchStep(old(buf[..]), at, data, i);
      buf[at + i] := data[i];
      assert buf[..] == Patch(old(buf[..]), at, data[..i])[at + i := data[i]];
    }
    assert data[..|data|] == data;
  }

  // ----- unbuffered transfers

  /** The first c of the cnt bytes at p, and what is pending behind them. */
  lemma Taken(b: seq<Byte>, p: nat, cnt: nat, c: nat, stream: seq<Byte>)
    requires c <= cnt && p + cnt <= |b|
    ensures var all := b[p..p + cnt] + stream;
            && all[..c] == b[p..p + c]
            && all[c..] == (if cnt > c then b[p + c..p + cnt] else []) + stream
  {
  }

  /** rio_readn: all of n bytes unless the stream ends or the kernel fails; whatever
      happens, what arrived and what is left make up the stream. */
  method ReadN(k: Kernel, usrbuf: array<Byte>, n: nat) returns (r: int, ghost got: nat)
    requires n <= usrbuf.Length
    modifies k`stream, k`events, usrbuf
    ensures got <= n && usrbuf[..got] + k.stream == old(k.stream)
    ensures usrbuf[got..] == old(usrbuf[got..])
    ensures r == -1 || r == got == Min(n, |old(k.stream)|)
    ensures r == -1 ==> Fail in old(k.events)
  {
    var nleft, bufp := n, 0;
    got := 0;
    while nleft > 0
      invariant 0 <= nleft && 0 <= bufp && nleft + bufp == n && got == bufp
      invariant usrbuf[..bufp] + k.stream == old(k.stream) && usrbuf[bufp..] == old(usrbuf[bufp..])
      invariant forall e | e in k.events :: e in old(k.events)
      decreases |k.events| + nleft, nleft
    {
      ghost var before, stream := usrbuf[..], k.stream;
      var nread, data, eintr := k.Read(nleft);
      if nread < 0 {
        if !eintr { return -1, got; }
      } else if nread == 0 {
        break;
      } else {
        CopyIn(usrbuf, bufp, data);
        assert usrbuf[..bufp + nread] == before[..bufp] + data;
        assert usrbuf[bufp + nread..] == before[bufp..][nread..];
        nleft := nleft - nread;
        bufp := bufp + nread;
        got := bufp;
      }
    }
    r := n - nleft;
  }

  lemma Advance(s: seq<Byte>, i: nat, n: nat, w: nat)
    requires w <= n && i + n <= |s|
    ensures s[..i + w] == s[..i] + s[i..i + n][..w]
  {
  }

  /** rio_writen: all n bytes in order, or a prefix and -1 after a failure; a write of
      nothing counts as one unless errno happens to be EINTR. */
  method WriteN(k: Kernel, usrbuf: array<Byte>, n: nat) returns (r: int, ghost sent: nat)
    requires n <= usrbuf.Length
    modifies k`written, k`events
    ensures sent <= n && k.written == old(k.written) + usrbuf[..sent]
    ensures r == -1 || r == sent == n
    ensures r == -1 ==> Fail in old(k.events) || Nothing(false) in old(k.events)
  {
    var nleft, bufp := n, 0;
    sent := 0;
    while nleft > 0
      invariant 0 <= nleft && 0 <= bufp && nleft + bufp == n && sent == bufp
      invariant k.written == old(k.written) + usrbuf[..bufp]
      invariant forall e | e in k.events :: e in old(k.events)
      decreases |k.events| + nleft, nleft
    {
      var nwritten, eintr := k.Write(usrbuf[bufp..bufp + nleft]);
      if nwritten <= 0 {
        if !eintr { return -1, sent; }
        nwritten := 0;
      }
      Advance(usrbuf[..], bufp, nleft, nwritten);
      nleft := nleft - nwritten;
      bufp := bufp + nwritten;
      sent := bufp;
    }
    r := n;
  }

  // ----- buffered input

  /** A line of at most k bytes: up to the first newline, k bytes or the end. */
  function Line(s: seq<Byte>, k: nat): (n: nat)
    ensures n <= |s| && n <= k
    decreases k
  {
    if s == [] || k == 0 then 0
    else if s[0] == NEWLINE then 1
    else 1 + Line(s[1..], k - 1)
  }

  /** It has a newline at most at its end, and stops short of k bytes and of the end only
      after one. */
  lemma {:induction false} LineStops(s: seq<Byte>, k: nat)
    ensures var n := Line(s, k);
            && (forall i | 0 <= i < n - 1 :: s[i] != NEWLINE)
            && (n == k || n == |s| || (n > 0 && s[n - 1] == NEWLINE))
    decreases k
  {
    if s != [] && k > 0 && s[0] != NEWLINE {
      LineStops(s[1..], k - 1);
      var n := Line(s, k);
      forall i | 0 <= i < n - 1 ensures s[i] != NEWLINE {
        if i > 0 { assert s[i] == s[1..][i - 1]; }
      }
    }
  }

  lemma {:induction false} LineMore(s: seq<Byte>, i: nat, k: nat)
    requires i < |s| && i < k && forall j | 0 <= j < i :: s[j] != NEWLINE
    ensures s[i] == NEWLINE ==> Line(s, k) == i + 1
    ensures Line(s, k) >= i + 1
  {
    if i > 0 {
      assert s[0] != NEWLINE;
      forall j | 0 <= j < i - 1 ensures s[1..][j] != NEWLINE { assert s[1..][j] == s[j + 1]; }
      LineMore(s[1..], i - 1, k - 1);
    }
  }

  /** A call of the buffered readers, and what it delivers of a stream. */
  datatype Call = GetN(n: nat) | GetLine(maxlen: nat)

  function Delivered(c: Call, s: seq<Byte>): (n: nat)
    ensures n <= |s|
  {
    match c
    case GetN(n) => Min(n, |s|)
    case GetLine(maxlen) => Line(s, if maxlen == 0 then 0 else maxlen - 1)
  }

  /** A line of at most maxlen - 1 bytes is delivered, one byte being for the terminating zero:
      the number is the only one within that limit and the stream with no newline before the
      last byte, and either full, or at the end, or behind a newline. */
  lemma DeliveredIff(maxlen: nat, s: seq<Byte>, n: nat)
    ensures n == Delivered(GetLine(maxlen), s) <==>
            && n <= |s| && (n < maxlen || n == 0)
            && (forall i | 0 <= i < n - 1 :: s[i] != 10)
            && (n + 1 >= maxlen || n == |s| || (n > 0 && s[n - 1] == 10))
  {
    var k := if maxlen == 0 then 0 else maxlen - 1;
    LineStops(s, k);
  }

  /** The pieces a run of calls delivers, and the rest. */
  function Serve(calls: seq<Call>, s: seq<Byte>): (seq<seq<Byte>>, seq<Byte>) {
    if calls == [] then ([], s) else
      var n := Delivered(calls[0], s);
      var (pieces, rest) := Serve(calls[1..], s[n..]);
      ([s[..n]] + pieces, rest)
  }

  function Concat(pieces: seq<seq<Byte>>): seq<Byte> {
    if pieces == [] then [] else pieces[0] + Concat(pieces[1..])
  }

  /** Nothing is lost, repeated or reordered by any interleaving of calls. */
  lemma {:induction false} ServeConserves(calls: seq<Call>, s: seq<Byte>)
    ensures Concat(Serve(calls, s).0) + Serve(calls, s).1 == s
  {
    if calls != [] {
      var n := Delivered(calls[0], s);
      ServeConserves(calls[1..], s[n..]);
      var r := Serve(calls[1..], s[n..]);
      assert ([s[..n]] + r.0)[1..] == r.0;
      assert s == s[..n] + (Concat(r.0) + r.1);
    }
  }

  class Rio {
    const k: Kernel
    var cnt: int             // rio_cnt
    var ptr: nat             // rio_bufptr, as an index
    const buf: array<Byte>   // rio_buf

    ghost predicate Valid()
      reads this
    {
      buf.Length == RIO_BUFSIZE && cnt <= RIO_BUFSIZE && (cnt > 0 ==> ptr + cnt <= RIO_BUFSIZE)
    }

    /** What the reader has yet to deliver: the unread buffer, then the untouched stream. */
    ghost function Pending(): seq<Byte>
      requires Valid()
      reads this, buf, k
    {
      (if cnt > 0 then buf[ptr..ptr + cnt] else []) + k.stream
    }

    ghost function Owned(): set<object>
    {
      {this, buf, k}
    }

    /** rio_readinitb */
    constructor (k: Kernel)
      ensures Valid() && this.k == k && fresh(buf) && Pending() == k.stream
    {
      this.k := k;
      cnt, ptr := 0, 0;
      buf := new Byte[RIO_BUFSIZE](_ => 0);
    }

    /** The refill loop of rio_read. */
    method Refill() returns (r: int)
      requires Valid()
      modifies Owned()
      ensures Valid() && Pending() == old(Pending())
      ensures forall e | e in k.events :: e in old(k.events)
      ensures r == -1 || r == 0 || (r == 1 && cnt > 0)
      ensures r == -1 ==> Fail in old(k.events)
      ensures r == 0 ==> Pending() == [] && cnt <= 0
    {
      while cnt <= 0
        invariant Valid() && Pending() == old(Pending())
        invariant forall e | e in k.events :: e in old(k.events)
        decreases |k.events|, if cnt <= 0 then 1 else 0
      {
        ghost var stream := k.stream;
        var n, data, eintr := k.Read(RIO_BUFSIZE);
        cnt := n;
        if cnt < 0 {
          if !eintr { return -1; }
        } else if cnt == 0 {
          return 0;
        } else {
          CopyIn(buf, 0, data);
          ptr := 0;
          assert buf[0..cnt] == data;
        }
      }
      r := 1;
    }

    /** rio_read: min(n, rio_cnt) bytes once there are any. */
    method Read(usrbuf: array<Byte>, at: nat, n: nat) returns (r: int)
      requires Valid() && usrbuf !in Owned() && at + n <= usrbuf.Length && n > 0
      modifies Owned(), usrbuf
      ensures Valid() && forall e | e in k.events :: e in old(k.events)
      ensures -1 <= r <= n
      ensures r <= 0 ==> usrbuf[..] == old(usrbuf[..]) && Pending() == old(Pending())
      ensures r == -1 ==> Fail in old(k.events)
      ensures r == 0 ==> Pending() == []
      ensures r > 0 ==> r <= |old(Pending())| && Pending() == old(Pending())[r..]
                        && usrbuf[..] == Patch(old(usrbuf[..]), at, old(Pending())[..r])
    {
      hide Patch;
      var got := Refill();
      if got <= 0 { return got; }
      var c := if cnt < n then cnt else n;
      Taken(buf[..], ptr, cnt, c, k.stream);
      CopyIn(usrbuf, at, buf[ptr..ptr + c]);
      ptr := ptr + c;
      cnt := cnt - c;
      return c;
    }

    /** rio_readnb: min(n, what is pending) bytes, in order, and the rest stays pending; on
        a failure of the kernel, too, nothing is lost. */
    method ReadNB(usrbuf: array<Byte>, n: nat) returns (r: int, ghost got: nat)
      requires Valid() && usrbuf !in Owned() && n <= usrbuf.Length
      modifies Owned(), usrbuf
      ensures Valid() && forall e | e in k.events :: e in old(k.events)
      ensures got <= n && got <= |old(Pending())|
      ensures usrbuf[..got] == old(Pending())[..got] && Pending() == old(Pending())[got..]
      ensures usrbuf[got..] == old(usrbuf[got..])
      ensures r == -1 || r == got == Delivered(GetN(n), old(Pending()))
      ensures r == -1 ==> Fail in old(k.events)
    {
      ghost var all := Pending();
      var nleft, bufp := n, 0;
      got := 0;
      while nleft > 0
        invariant 0 <= nleft && 0 <= bufp && nleft + bufp == n && got == bufp <= |all|
        invariant Valid() && forall e | e in k.events :: e in old(k.events)
        invariant usrbuf[..bufp] == all[..bufp] && Pending() == all[bufp..]
        invariant usrbuf[bufp..] == old(usrbuf[bufp..])
      {
        ghost var before := usrbuf[..];
        var nread := Read(usrbuf, bufp, nleft);
        if nread < 0 { return -1, got; }
        if nread == 0 { break; }
        assert usrbuf[..bufp + nread] == before[..bufp] + all[bufp..][..nread];
        assert usrbuf[bufp + nread..] == before[bufp..][nread..];
        nleft := nleft - nread;
        bufp := bufp + nread;
        got := bufp;
      }
      r := n - nleft;
    }

    /** rio_read of one character. */
    method ReadChar() returns (rc: int, c: Byte)
      requires Valid()
      modifies Owned()
      ensures Valid() && forall e | e in k.events :: e in old(k.events)
      ensures rc == -1 || rc == 0 || rc == 1
      ensures rc <= 0 ==> Pending() == old(Pending())
      ensures rc == -1 ==> Fail in old(k.events)
      ensures rc == 0 ==> Pending() == []
      ensures rc == 1 ==> old(Pending()) == [c] + Pending()
    {
      hide Pending;
      var one := new Byte[1](_ => 0);
      rc := Read(one, 0, 1);
      c := one[0];
      if rc == 1 { assert one[..] == [c]; }
    }

    /** rio_readlineb: the next line, at most maxlen - 1 bytes of it, and a terminating
        zero unless the stream was at its end. */
    method ReadLineB(usrbuf: array<Byte>, maxlen: nat) returns (r: int, ghost got: nat)
      requires Valid() && usrbuf !in Owned() && maxlen <= usrbuf.Length && usrbuf.Length > 0
      modifies Owned(), usrbuf
      ensures Valid() && forall e | e in k.events :: e in old(k.events)
      ensures got <= |old(Pending())| && got < usrbuf.Length
      ensures usrbuf[..got] == old(Pending())[..got] && Pending() == old(Pending())[got..]
      ensures r == -1 || r == got == Delivered(GetLine(maxlen), old(Pending()))
      ensures r > 0 || (r == 0 && maxlen <= 1) ==> usrbuf[r] == 0
      ensures r == -1 ==> Fail in old(k.events)
    {
      hide Pending, Line;
      ghost var all := Pending();
      var n := 1;
      got := 0;
      LineEnds(all, 0, maxlen);
      while n < maxlen
        invariant 1 <= n && (n <= maxlen || n == 1) && got == n - 1 <= |all|
        invariant Valid() && forall e | e in k.events :: e in old(k.events)
        invariant usrbuf[..got] == all[..got] && Pending() == all[got..]
        invariant NoNewline(all, got)
      {
        var rc, c := ReadChar();
        if rc == 1 {
          assert all[got..] == [c] + all[got..][1..] && all[got] == c && all[got..][1..] == all[got + 1..];
          usrbuf[n - 1] := c;
          assert usrbuf[..got + 1] == all[..got + 1];
          n := n + 1;
          if c == NEWLINE {
            LineMore(all, got, maxlen - 1);
            got := got + 1;
            usrbuf[n - 1] := 0;
            return n - 1, got;
          }
          got := got + 1;
        } else if rc == 0 {
          LineEnds(all, got, maxlen);
          if n == 1 { return 0, got; }
          usrbuf[n - 1] := 0;
          return n - 1, got;
        } else {
          return -1, got;
        }
      }
      LineEnds(all, got, maxlen);
      usrbuf[n - 1] := 0;
      return n - 1, got;
    }
  }

  /** A client that makes any interleaving of calls gets the stream cut up as Serve says,
      however the kernel splits and interrupts its transfers. */
  method Session(rio: Rio, calls: seq<Call>) returns (ok: bool, pieces: seq<seq<Byte>>)
    requires rio.Valid()
    modifies rio.Owned()
    ensures rio.Valid()
    ensures ok ==> (pieces, rio.Pending()) == Serve(calls, old(rio.Pending()))
    ensures !ok ==> Fail in old(rio.k.events)
  {
    ghost var all := rio.Pending();
    pieces := [];
    assert calls[0..] == calls && pieces + Serve(calls, all).0 == Serve(calls, all).0;
    for i := 0 to |calls|
      invariant rio.Valid() && forall e | e in rio.k.events :: e in old(rio.k.events)
      invariant var rest := Serve(calls[i..], rio.Pending()); Serve(calls, all) == (pieces + rest.0, rest.1)
    {
      ghost var before := rio.Pending();
      ServeNext(calls, i, before);
      var r, usrbuf := Make(rio, calls[i]);
      if r < 0 { return false, pieces; }
      assert pieces + [usrbuf[..r]] == pieces + [before[..r]];
      pieces := pieces + [usrbuf[..r]];
      assert forall rest :: pieces + rest == pieces[..|pieces| - 1] + ([before[..r]] + rest);
    }
    ok := true;
    assert pieces + [] == pieces;
  }

  lemma ServeNext(calls: seq<Call>, i: nat, s: seq<Byte>)
    requires i < |calls|
    ensures var n := Delivered(calls[i], s); var rest := Serve(calls[i + 1..], s[n..]);
            Serve(calls[i..], s) == ([s[..n]] + rest.0, rest.1)
  {
    assert calls[i..][1..] == calls[i + 1..];
  }

  method Make(rio: Rio, c: Call) returns (r: int, usrbuf: array<Byte>)
    requires rio.Valid()
    modifies rio.Owned()
    ensures rio.Valid() && forall e | e in rio.k.events :: e in old(rio.k.events)
    ensures fresh(usrbuf)
    ensures r == -1 ==> Fail in old(rio.k.events)
    ensures r == -1 || (r == Delivered(c, old(rio.Pending())) <= usrbuf.Length
                        && usrbuf[..r] == old(rio.Pending())[..r] && rio.Pending() == old(rio.Pending())[r..])
  {
    hide Line;
    match c
    case GetN(n) =>
      usrbuf := new Byte[n](_ => 0);
      ghost var got;
      r, got := rio.ReadNB(usrbuf, n);
    case GetLine(maxlen) =>
      usrbuf := new Byte[maxlen + 1](_ => 0);
      ghost var got;
      r, got := rio.ReadLineB(usrbuf, maxlen);
  }

  ghost predicate NoNewline(s: seq<Byte>, n: nat) {
    n <= |s| && forall j | 0 <= j < n :: s[j] != NEWLINE
  }

  /** Without a newline the line is as long as the stream or the limit allows. */
  lemma LineEnds(s: seq<Byte>, n: nat, maxlen: nat)
    requires NoNewline(s, n) && n <= if maxlen == 0 then 0 else maxlen - 1
    ensures n == |s| || n + 1 >= maxlen ==> Delivered(GetLine(maxlen), s) == n
  {
    var k := if maxlen == 0 then 0 else maxlen - 1;
    LineStops(s, k);
    if n > 0 { LineMore(s, n - 1, k); }
  }
}
