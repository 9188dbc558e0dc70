/** The delimiter and length framing of memorybuf in buffer.hpp, on a buffer set up by input(). */
module Framing {
  import opened Options

  // One call that cuts a piece off the front of what is left.
  datatype Request = View(delim: string) | Body(size: nat)

  predicate DelimAt(s: string, delim: string, i: nat) {
    i + |delim| <= |s| && s[i..i + |delim|] == delim
  }

  // The leftmost place at or after from where delim stands.
  ghost predicate Leftmost(s: string, delim: string, from: nat, i: nat) {
    from <= i && DelimAt(s, delim, i) && forall k :: from <= k < i ==> !DelimAt(s, delim, k)
  }

  class MemoryBuf {
    var data: string
    var get: nat   // gptr, as an offset from data_
    var size: nat  // size_

    ghost predicate Valid()
      reads this
    {
      get <= |data| == size
    }

    constructor Input(buf: string)
      ensures Valid() && data == buf && get == 0
    {
      data, get, size := buf, 0, |buf|;
    }

    method Used() returns (n: nat)
      requires Valid()
      ensures n == get
    {
      n := if size != 0 then get else 0;
    }

    method Readable() returns (r: bool)
      requires Valid()
      ensures r <==> get < |data|
    {
      r := get < |data|;
    }

    /** None is the empty view without data that a failed call returns. */
    method ZbGetBody(n: nat) returns (r: Option<string>)
      requires Valid()
      modifies this`get
      ensures Valid()
      ensures r == if n <= |data| - old(get) then Some(data[old(get)..old(get) + n]) else None
      ensures get == old(get) + if r.Some? then n else 0
      ensures (r, get) == Served(data, old(get), Body(n))
    {
      if |data| - get >= n {
        r := Some(data[get..get + n]);
        get := get + n;
      } else {
        r := None;
      }
    }

    method ZbGetView(delim: string) returns (r: Option<string>)
      requires Valid()
      modifies this`get
      ensures Valid()
      ensures r.Some? ==> Leftmost(data, delim, old(get), old(get) + |r.value|)
                          && r.value == data[old(get)..old(get) + |r.value|]
                          && get == old(get) + |r.value| + |delim|
      ensures r == None ==> get == old(get) && forall i :: old(get) <= i ==> !DelimAt(data, delim, i)
      ensures (r, get) == Served(data, old(get), View(delim))
    {
      var start, end := get, get;
      while true
        invariant start == get <= end <= |data|
        invariant forall k :: start <= k < end ==> !DelimAt(data, delim, k)
        decreases |data| - end
      {
        var avail := |data| - end;
        if avail < |delim| {
          FindIsNone(data, delim, start);
          return None;
        }
        if data[end..end + |delim|] == delim {
          FindIsLeftmost(data, delim, start, end);
          get := get + (end - start) + |delim|;
          return Some(data[start..end]);
        }
        end := end + 1;
      }
    }
  }

  // ---------------------------------------------------------------------------------------- the calls as values

  function Find(s: string, delim: string, from: nat): (r: Option<nat>)
    requires from <= |s|
    decreases |s| - from
  {
    if |s| - from < |delim| then None
    else if DelimAt(s, delim, from) then Some(from)
    else if from == |s| then None
    else Find(s, delim, from + 1)
  }

  lemma {:induction false} FindIsLeftmost(s: string, delim: string, from: nat, i: nat)
    requires from <= |s| && Leftmost(s, delim, from, i)
    ensures Find(s, delim, from) == Some(i)
    decreases |s| - from
  {
    if from < i { FindIsLeftmost(s, delim, from + 1, i); }
  }

  lemma {:induction false} FindIsNone(s: string, delim: string, from: nat)
    requires from <= |s| && forall k :: from <= k && k + |delim| <= |s| ==> !DelimAt(s, delim, k)
    ensures Find(s, delim, from) == None
    decreases |s| - from
  {
    if |s| - from >= |delim| {
      assert !DelimAt(s, delim, from);
      if from < |s| { FindIsNone(s, delim, from + 1); }
    }
  }

  lemma {:induction false} FoundStands(s: string, delim: string, from: nat)
    requires from <= |s|
    ensures var r := Find(s, delim, from); r.Some? ==> from <= r.value && DelimAt(s, delim, r.value)
    decreases |s| - from
  {
    if |s| - from >= |delim| && !DelimAt(s, delim, from) && from < |s| { FoundStands(s, delim, from + 1); }
  }

  // The piece a call returns and the cursor it leaves.
  function Served(s: string, get: nat, request: Request): (Option<string>, nat)
    requires get <= |s|
  {
    match request
    case Body(n) => if n <= |s| - get then (Some(s[get..get + n]), get + n) else (None, get)
    case View(delim) =>
      var found := Find(s, delim, get);
      if found == None then (None, get)
      else
        FoundStands(s, delim, get);
        (Some(s[get..found.value]), found.value + |delim|)
  }

  lemma ServedStaysInside(s: string, get: nat, request: Request)
    requires get <= |s|
    ensures get <= Served(s, get, request).1 <= |s|
  {
    if request.View? { FoundStands(s, request.delim, get); }
  }

  // What one call consumed: its piece, and after a view the delimiter.
  function Text(piece: Option<string>, request: Request): string {
    if piece == None then "" else piece.value + if request.View? then request.delim else ""
  }

  lemma TextIsInput(s: string, get: nat, request: Request)
    requires get <= |s|
    ensures var (piece, next) := Served(s, get, request);
            get <= next <= |s| && Text(piece, request) == s[get..next]
  {
    ServedStaysInside(s, get, request);
    if request.View? {
      var found := Find(s, request.delim, get);
      FoundStands(s, request.delim, get);
      if found.Some? {
        var i := found.value;
        assert s[get..i + |request.delim|] == s[get..i] + s[i..i + |request.delim|];
      }
    }
  }

  // What a run of calls consumed.
  function Consumed(s: string, get: nat, requests: seq<Request>): (string, nat)
    requires get <= |s|
    decreases |requests|
  {
    if requests == [] then ("", get)
    else
      ServedStaysInside(s, get, requests[0]);
      var (piece, next) := Served(s, get, requests[0]);
      var (rest, last) := Consumed(s, next, requests[1..]);
      (Text(piece, requests[0]) + rest, last)
  }

  /** Framing loses and invents nothing: over any run of calls, with any delimiters and sizes and any failures between
      them, the pieces and delimiters put together are exactly the bytes used() counts. */
  lemma {:induction false} PiecesMakeUpInput(s: string, get: nat, requests: seq<Request>)
    requires get <= |s|
    ensures var (text, last) := Consumed(s, get, requests); get <= last <= |s| && text == s[get..last]
    decreases |requests|
  {
    hide Served, Text;
    if requests != [] {
      TextIsInput(s, get, requests[0]);
      var next := Served(s, get, requests[0]).1;
      PiecesMakeUpInput(s, next, requests[1..]);
      var last := Consumed(s, next, requests[1..]).1;
      assert s[get..next] + s[next..last] == s[get..last];
    }
  }
}
