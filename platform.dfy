/** The platform services the recording sinks use: a file system whose files
    are text, a UDP socket that records its datagrams, and Math.Round's
    default midpoint rule on exact rationals. */
module Platform {
  import opened Wrappers
  import opened Exceptions
  import opened Extensions

  /** Files by path. Opening a path in `unwritable` for writing throws an
      IOException (missing directory, no permission, locked). */
  class FileSystem {
    var files: map<string, string>
    const unwritable: set<string>

    constructor (files: map<string, string>, unwritable: set<string>)
      ensures this.files == files && this.unwritable == unwritable
    {
      this.files := files;
      this.unwritable := unwritable;
    }

    /** The content of a file; a missing file reads as empty. */
    function Content(path: string): string
      reads this
    {
      if path in files then files[path] else ""
    }

    /** File.Open(path, FileMode.Append) followed by a write of s. */
    method Append(path: string, s: string) returns (o: Outcome<Exception>)
      modifies this
      ensures path in unwritable ==> o == Fail(IOException) && files == old(files)
      ensures path !in unwritable ==> o == Pass && files == old(files)[path := old(Content(path)) + s]
    {
      if path in unwritable {
        return Fail(IOException);
      }
      files := files[path := Content(path) + s];
      o := Pass;
    }

    /** File.Open(path, FileMode.Create) followed by a write of s: the old
        content, if any, is replaced. */
    method Create(path: string, s: string) returns (o: Outcome<Exception>)
      modifies this
      ensures path in unwritable ==> o == Fail(IOException) && files == old(files)
      ensures path !in unwritable ==> o == Pass && files == old(files)[path := s]
    {
      if path in unwritable {
        return Fail(IOException);
      }
      files := files[path := s];
      o := Pass;
    }
  }

  /** A UdpClient: the datagrams sent through it, as the text they encode, and
      the handle its Dispose releases. */
  class UdpClient {
    var sent: seq<string>
    const handle: Resource

    constructor (handle: Resource)
      ensures sent == [] && this.handle == handle
    {
      sent := [];
      this.handle := handle;
    }

    /** UdpClient.Send: throws once the client is disposed. */
    method Send(datagram: string) returns (o: Outcome<Exception>)
      modifies this
      ensures handle.disposeCalls > 0 ==> o == Fail(ObjectDisposedException) && sent == old(sent)
      ensures handle.disposeCalls == 0 ==> o == Pass && sent == old(sent) + [datagram]
    {
      if handle.disposeCalls > 0 {
        return Fail(ObjectDisposedException);
      }
      sent := sent + [datagram];
      o := Pass;
    }
  }

  /** Math.Round(n / d, 0) for an exact rational n / d: the nearest integer,
      and the even one of the two when n / d lies halfway between. */
  function RoundHalfEven(n: int, d: int): (r: int)
    requires d > 0
    ensures 2 * Abs(n - d * r) <= d
    ensures 2 * Abs(n - d * r) == d ==> r % 2 == 0
  {
    var q := n / d;
    var m := n % d;
    if 2 * m < d then q
    else if 2 * m > d then q + 1
    else if q % 2 == 0 then q else q + 1
  }

  function Abs(x: int): nat {
    if x < 0 then -x else x
  }

  lemma MulAtLeast(d: int, k: int)
    requires d > 0 && k >= 1
    ensures d * k >= d
  {
  }

  /** An integer below n / d's floor is more than half a step away. */
  lemma FarBelow(n: int, d: int, r: int)
    requires d > 0 && r < n / d
    ensures n - d * r >= d
  {
    var k := n / d - r;
    MulAtLeast(d, k);
    assert n - d * r == d * k + n % d;
  }

  /** An integer above n / d's floor plus one is more than half a step away. */
  lemma FarAbove(n: int, d: int, r: int)
    requires d > 0 && r > n / d + 1
    ensures d * r - n > d
  {
    var k := r - n / d - 1;
    MulAtLeast(d, k);
    assert d * r - n == d * k + d - n % d;
  }

  /** The two conditions of RoundHalfEven pin its result down. */
  lemma RoundHalfEvenUnique(n: int, d: int, r: int)
    requires d > 0
    requires 2 * Abs(n - d * r) <= d
    requires 2 * Abs(n - d * r) == d ==> r % 2 == 0
    ensures r == RoundHalfEven(n, d)
  {
    var q := n / d;
    if r < q {
      FarBelow(n, d, r);
      assert false;
    } else if r > q + 1 {
      FarAbove(n, d, r);
      assert false;
    }
    assert n - d * q == n % d;
    assert n - d * (q + 1) == n % d - d;
  }
}
