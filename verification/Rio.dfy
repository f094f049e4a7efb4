// Buffered robust reading, proxylab-handout/csapp.c: rio_read, rio_readnb and
// rio_readlineb against a kernel that may deliver short counts, be interrupted or fail.
module Rio {
  import opened Common

  const RIO_BUFSIZE := 8192
  const NEWLINE: byte := 10

  // What one read() does: EINTR, another error, or at most so many bytes.
  datatype Answer = Interrupted | Failed | AtMost(limit: nat)

  function Min(x: int, y: int): int { if x <= y then x else y }

  // The descriptor: the bytes still to come and how the next reads will go.  Once the
  // schedule is used up, reads deliver all they can; any finite number of interruptions
  // and short counts fits in front.
  class Kernel {
    var unread: seq<byte>
    var schedule: seq<Answer>

    constructor (stream: seq<byte>, schedule: seq<Answer>)
      ensures unread == stream && this.schedule == schedule
    {
      unread, this.schedule := stream, schedule;
    }

    // read(fd, buf, |buf|): the count, 0 at the end of the stream, or -1.
    method Read(buf: array<byte>) returns (r: int, eintr: bool)
      requires buf.Length > 0
      modifies this, buf
      ensures |schedule| < |old(schedule)| || (old(schedule) == [] && schedule == [] && r >= 0)
      ensures -1 <= r <= buf.Length
      ensures r == -1 ==> unread == old(unread)
      ensures r == 0 ==> unread == old(unread) == []
      ensures r > 0 ==> buf[..r] + unread == old(unread)
      ensures eintr ==> r == -1
    {
      var limit := buf.Length;
      eintr := false;
      if |schedule| > 0 {
        var a := schedule[0];
        schedule := schedule[1..];
        match a {
          case Interrupted => return -1, true;
          case Failed => return -1, false;
          case AtMost(n) => limit := Min(limit, if n > 0 then n else 1);
        }
      }
      r := Min(limit, |unread|);
      forall i | 0 <= i < r { buf[i] := unread[i]; }
      assert buf[..r] == unread[..r];
      unread := unread[r..];
    }
  }

  // The bytes a call of rio_readlineb takes: through the first newline, at most limit.
  function LineLength(s: seq<byte>, limit: nat): (n: nat)
    ensures n <= limit && n <= |s|
    ensures forall i | 0 <= i < n - 1 :: s[i] != NEWLINE
    ensures n < limit && n < |s| ==> n > 0 && s[n-1] == NEWLINE
  {
    if limit == 0 || s == [] then 0
    else if s[0] == NEWLINE then 1
    else 1 + LineLength(s[1..], limit - 1)
  }

  // rio_t
  class RioBuf {
    const fd: Kernel
    var cnt: int
    var bufptr: nat
    const buf: array<byte>

    ghost predicate Valid()
      reads this
    {
      buf.Length == RIO_BUFSIZE && -1 <= cnt && (cnt > 0 ==> bufptr + cnt <= RIO_BUFSIZE)
    }

    // What is read and not delivered, and what is still to be read.
    ghost function Pending(): seq<byte>
      requires Valid()
      reads this, buf, fd
    {
      (if cnt > 0 then buf[bufptr..bufptr+cnt] else []) + fd.unread
    }

    // rio_readinitb
    constructor (fd: Kernel)
      ensures Valid() && fresh(buf) && this.fd == fd && Pending() == fd.unread
    {
      this.fd := fd;
      cnt, bufptr := 0, 0;
      buf := new byte[RIO_BUFSIZE](_ => 0);
    }

    // The loop of rio_read that refills the buffer: 1, 0 at the end of the stream, or -1.
    method Refill() returns (r: int)
      requires Valid()
      modifies this, buf, fd
      ensures Valid() && -1 <= r <= 1 && Pending() == old(Pending())
      ensures r == 1 ==> cnt > 0
      ensures r == 0 ==> Pending() == []
    {
      while cnt <= 0
        invariant Valid() && Pending() == old(Pending())
        decreases |fd.schedule| + (if cnt <= 0 then 1 else 0)
      {
        var eintr;
        cnt, eintr := fd.Read(buf);
        if cnt < 0 {
          if !eintr { return -1; }
        } else if cnt == 0 {
          return 0;
        } else {
          bufptr := 0;
        }
      }
      r := 1;
    }

    // The end of rio_read: min(n, cnt) bytes to the user.
    method Deliver(usr: array<byte>, at: nat, n: nat) returns (r: int)
      requires Valid() && cnt > 0 && n > 0 && at + n <= usr.Length && usr != buf
      modifies this, usr
      ensures Valid() && 0 < r <= n && old(Pending()) == usr[at..at+r] + Pending()
      ensures usr[..at] == old(usr[..at])
    {
      r := n;
      if cnt < n { r := cnt; }
      ghost var before := buf[bufptr..bufptr+cnt];
      forall i | at <= i < at + r { usr[i] := buf[bufptr+i-at]; }
      assert forall i | at <= i < at + r :: usr[i] == before[i-at];
      assert usr[at..at+r] == before[..r];
      Split(buf[..], bufptr, cnt, r);
      bufptr := bufptr + r;
      cnt := cnt - r;
      Regrouped(before[..r], before[r..], fd.unread);
    }

    // rio_read: between 1 and n pending bytes, 0 if there are none, -1 after an error.
    method ReadSome(usr: array<byte>, at: nat, n: nat) returns (r: int)
      requires Valid() && n > 0 && at + n <= usr.Length && usr != buf
      modifies this, buf, fd, usr
      ensures Valid() && -1 <= r <= n && usr[..at] == old(usr[..at])
      ensures r <= 0 ==> Pending() == old(Pending())
      ensures r == 0 ==> Pending() == []
      ensures r > 0 ==> old(Pending()) == usr[at..at+r] + Pending()
    {
      hide Pending;
      r := Refill();
      if r == 1 { r := Deliver(usr, at, n); }
    }

    // rio_readnb: n bytes or up to the end of the stream.
    method ReadN(usr: array<byte>, n: nat) returns (r: int)
      requires Valid() && n <= usr.Length && usr != buf
      modifies this, buf, fd, usr
      ensures Valid() && r >= -1
      ensures r >= 0 ==> r == Min(n, |old(Pending())|)
      ensures r >= 0 ==> usr[..r] + Pending() == old(Pending())
      ensures r == -1 ==> exists k | 0 <= k < n :: usr[..k] + Pending() == old(Pending())
    {
      hide Pending;
      var nleft := n;
      assert usr[..0] + Pending() == Pending();
      while nleft > 0
        invariant Valid() && 0 <= nleft <= n
        invariant usr[..n-nleft] + Pending() == old(Pending())
        decreases nleft
      {
        var k := n - nleft;
        ghost var got := usr[..k];
        var nread := ReadSome(usr, k, nleft);
        if nread < 0 {
          assert usr[..k] + Pending() == old(Pending());
          return -1;
        } else if nread == 0 {
          break;
        }
        Regrouped(got, usr[k..k+nread], Pending());
        assert usr[..k+nread] == got + usr[k..k+nread];
        nleft := nleft - nread;
      }
      r := n - nleft;
    }

    // rio_read of one byte into c.
    method NextByte() returns (rc: int, c: byte)
      requires Valid()
      modifies this, buf, fd
      ensures Valid() && -1 <= rc <= 1
      ensures rc == 1 ==> old(Pending()) == [c] + Pending()
      ensures rc == 0 ==> old(Pending()) == Pending() == []
      ensures rc == -1 ==> Pending() == old(Pending())
    {
      var one := new byte[1];
      rc := ReadSome(one, 0, 1);
      c := one[0];
      assert rc == 1 ==> one[0..1] == [c];
    }

    // rio_read of one byte into usr[at].
    method StoreNext(usr: array<byte>, at: nat) returns (rc: int, c: byte)
      requires Valid() && at < usr.Length && usr != buf
      modifies this, buf, fd, usr
      ensures Valid() && -1 <= rc <= 1 && usr[..at] == old(usr[..at])
      ensures rc == 1 ==> old(Pending()) == [c] + Pending() && usr[..at+1] == old(usr[..at]) + [c]
      ensures rc == 0 ==> old(Pending()) == Pending() == []
      ensures rc == -1 ==> Pending() == old(Pending())
    {
      hide Pending;
      rc, c := NextByte();
      if rc == 1 {
        ghost var got := usr[..at];
        usr[at] := c;
        OneMore(usr[..at+1], got, c);
      }
    }

    // The loop of rio_readlineb: n - 1 bytes of a line, and how it ended: 1, 0 at the
    // end of the stream, or -1.
    method Collect(usr: array<byte>, maxlen: nat) returns (n: nat, rc: int)
      requires Valid() && maxlen <= usr.Length && usr.Length > 0 && usr != buf
      modifies this, buf, fd, usr
      ensures Valid() && -1 <= rc <= 1 && 1 <= n <= usr.Length
      ensures usr[..n-1] + Pending() == old(Pending())
      ensures rc == -1 ==> n - 1 < maxlen
      ensures rc >= 0 ==> n - 1 == LineLength(old(Pending()), if maxlen > 0 then maxlen - 1 else 0)
      ensures maxlen <= 1 ==> rc == 1
    {
      hide LineLength, Pending;
      ghost var all := Pending();
      ghost var limit := if maxlen > 0 then maxlen - 1 else 0;
      ghost var len := LineLength(all, limit);
      n := 1;
      assert usr[..0] + Pending() == all;
      while n < maxlen
        invariant Valid() && 1 <= n && (maxlen > 0 ==> n <= maxlen) && (maxlen == 0 ==> n == 1)
        invariant usr[..n-1] + Pending() == all
        invariant len == n - 1 + LineLength(Pending(), limit - (n - 1))
        decreases maxlen - n
      {
        ghost var rest := Pending();
        ghost var got := usr[..n-1];
        var c;
        rc, c := StoreNext(usr, n - 1);
        if rc != 1 {
          LineStart(rest, limit - (n - 1));
          return;
        }
        LineStep(c, Pending(), limit - (n - 1));
        Regrouped(got, [c], Pending());
        n := n + 1;
        if c == NEWLINE { return; }
      }
      LineStart(Pending(), limit - (n - 1));
      rc := 1;
    }

    // rio_readlineb: a line with its newline, or maxlen - 1 bytes, or up to the end of
    // the stream; then a NUL, except when the stream was at its end already.
    method ReadLine(usr: array<byte>, maxlen: nat) returns (r: int)
      requires Valid() && maxlen <= usr.Length && usr.Length > 0 && usr != buf
      modifies this, buf, fd, usr
      ensures Valid() && r >= -1
      ensures r >= 0 ==> r == LineLength(old(Pending()), if maxlen > 0 then maxlen - 1 else 0)
      ensures r >= 0 ==> r < usr.Length && usr[..r] + Pending() == old(Pending())
      ensures r > 0 || (r == 0 && maxlen <= 1) ==> usr[r] == 0
      ensures r == -1 ==> exists k | 0 <= k < maxlen :: usr[..k] + Pending() == old(Pending())
    {
      hide LineLength, Pending;
      var n, rc := Collect(usr, maxlen);
      if rc < 0 {
        assert usr[..n-1] + Pending() == old(Pending());
        return -1;
      }
      if rc == 0 && n == 1 { return 0; }
      ghost var got := usr[..n-1];
      usr[n-1] := 0;
      assert usr[..n-1] == got;
      r := n - 1;
    }

    // One call with a buffer of its own.  If it fails, lost is what it had read by then.
    method One(c: Call) returns (piece: seq<byte>, ok: bool, ghost lost: seq<byte>)
      requires Valid()
      modifies this, buf, fd
      ensures Valid() && piece + lost + Pending() == old(Pending())
      ensures if ok then |piece| == Taken(old(Pending()), c) && lost == [] else piece == [] && |lost| < c.size
    {
      hide Pending, LineLength;
      var usr := new byte[c.size + 1];
      var r;
      match c {
        case Bytes(n) => r := ReadN(usr, n);
        case Line(m) => r := ReadLine(usr, m);
      }
      if r < 0 {
        ghost var k: nat :| k < c.size && usr[..k] + Pending() == old(Pending());
        lost := usr[..k];
        assert [] + lost == lost;
        return [], false, lost;
      }
      piece, ok, lost := usr[..r], true, [];
      assert piece + [] == piece;
    }

    // Any mix of the two calls: those before the first failure, done of them, get
    // consecutive pieces of the stream, which do not depend on the kernel's schedule, and
    // nothing is lost but what the failing call had read.
    method Mix(calls: seq<Call>) returns (delivered: seq<byte>, done: nat, ghost lost: seq<byte>)
      requires Valid()
      modifies this, buf, fd
      ensures Valid() && done <= |calls| && delivered == Pieces(old(Pending()), calls[..done])
      ensures delivered + lost + Pending() == old(Pending())
      ensures if done == |calls| then lost == [] else |lost| < calls[done].size
    {
      hide Pending, Taken, Pieces;
      delivered, done, lost := [], 0, [];
      ghost var all := Pending();
      NoPieces(all);
      assert calls[..0] == [];
      while done < |calls|
        invariant 0 <= done <= |calls| && Valid() && delivered + Pending() == all && lost == []
        invariant delivered == Pieces(all, calls[..done])
      {
        ghost var before := Pending();
        var piece, ok;
        piece, ok, lost := One(calls[done]);
        if !ok {
          FailingStep(all, delivered, before, piece, lost, Pending());
          return;
        }
        NextPiece(all, calls, done, before, piece, lost, Pending());
        delivered := delivered + piece;
        done := done + 1;
      }
      assert delivered + [] == delivered;
    }
  }

  // A call of rio_readnb for so many bytes, or of rio_readlineb with such a maxlen.
  datatype Call = Bytes(size: nat) | Line(size: nat)

  // How many bytes of the stream a call takes.
  function Taken(s: seq<byte>, c: Call): (n: nat)
    ensures n <= |s|
  {
    match c
      case Bytes(n) => Min(n, |s|)
      case Line(m) => LineLength(s, if m > 0 then m - 1 else 0)
  }

  // What the calls get, from the stream alone: no schedule of the kernel shows.
  function Pieces(s: seq<byte>, calls: seq<Call>): seq<byte>
    decreases |calls|
  {
    if calls == [] then []
    else var n := Taken(s, calls[0]); s[..n] + Pieces(s[n..], calls[1..])
  }

  lemma NoPieces(s: seq<byte>)
    ensures Pieces(s, []) == []
  {
  }

  lemma {:induction false} PiecesSnoc(s: seq<byte>, calls: seq<Call>, c: Call, rest: seq<byte>)
    requires s == Pieces(s, calls) + rest
    ensures Pieces(s, calls + [c]) == Pieces(s, calls) + rest[..Taken(rest, c)]
    decreases |calls|
  {
    if calls == [] {
      assert s == rest && (calls + [c])[1..] == [];
      assert Pieces(s, [c]) == s[..Taken(s, c)] + Pieces(s[Taken(s, c)..], []);
    } else {
      var n := Taken(s, calls[0]);
      var t := s[n..];
      var more := Pieces(t, calls[1..]);
      assert Pieces(s, calls) == s[..n] + more;
      assert t == more + rest;
      PiecesSnoc(t, calls[1..], c, rest);
      assert (calls + [c])[1..] == calls[1..] + [c];
      Regrouped(s[..n], more, rest[..Taken(rest, c)]);
    }
  }

  lemma NextPiece(all: seq<byte>, calls: seq<Call>, k: nat, before: seq<byte>, piece: seq<byte>, lost: seq<byte>,
          rest: seq<byte>)
    requires k < |calls| && all == Pieces(all, calls[..k]) + before && lost == []
    requires piece + lost + rest == before && |piece| == Taken(before, calls[k])
    ensures Pieces(all, calls[..k+1]) == Pieces(all, calls[..k]) + piece
    ensures Pieces(all, calls[..k]) + piece + rest == all
  {
    hide Taken, Pieces;
    assert piece + lost == piece;
    assert before[..|piece|] == piece;
    PiecesSnoc(all, calls[..k], calls[k], before);
    assert calls[..k] + [calls[k]] == calls[..k+1];
    Regrouped(Pieces(all, calls[..k]), piece, rest);
  }

  lemma FailingStep(all: seq<byte>, delivered: seq<byte>, before: seq<byte>, piece: seq<byte>, lost: seq<byte>,
          rest: seq<byte>)
    requires delivered + before == all && piece == [] && piece + lost + rest == before
    ensures delivered + lost + rest == all
  {
    assert piece + lost == lost;
    Regrouped(delivered, lost, rest);
  }

  lemma Split(buf: seq<byte>, at: nat, cnt: nat, r: nat)
    requires at + cnt <= |buf| && r <= cnt
    ensures buf[at..at+cnt] == buf[at..at+cnt][..r] + buf[at+r..at+cnt]
    ensures buf[at..at+cnt][r..] == buf[at+r..at+cnt]
    ensures r == cnt ==> buf[at+r..at+cnt] == []
  {
  }

  lemma OneMore(s: seq<byte>, got: seq<byte>, c: byte)
    requires |s| == |got| + 1 && s[..|got|] == got && s[|got|] == c
    ensures s == got + [c]
  {
  }

  lemma LineStart(s: seq<byte>, limit: nat)
    ensures limit == 0 || s == [] ==> LineLength(s, limit) == 0
  {
  }

  lemma LineStep(c: byte, s: seq<byte>, limit: nat)
    requires limit > 0
    ensures LineLength([c] + s, limit) == 1 + if c == NEWLINE then 0 else LineLength(s, limit - 1)
  {
    assert ([c] + s)[1..] == s;
  }
}
