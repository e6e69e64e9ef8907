/**
 The descriptor walk of internal/web/job_output.go: every component of a path is opened relative to
 the one before, which is closed at once.
 */
module Descriptors {
  import opened Wrappers
  import opened Text
  import Sets

  type Descriptor = nat

  datatype Error = Refused | OpenFailed

  /** One call of `openat`, with the descriptor it yields; every call also refuses to follow links. */
  datatype OpenCall =
    OpenCall(parent: Descriptor, component: string, directory: bool, yielded: Result<Descriptor, Error>)

  /** Where a descriptor was opened: the components that lead there from the root of the file system. */
  type Place = seq<string>

  /** Whether the i-th call from now fails, and what is left after `k` calls. */
  predicate FailsAt(failures: seq<bool>, i: nat) {
    i < |failures| && failures[i]
  }

  function After(failures: seq<bool>, k: nat): seq<bool> {
    if k <= |failures| then failures[k..] else []
  }

  lemma AfterFails(failures: seq<bool>, k: nat)
    ensures FailsAt(After(failures, k), 0) == FailsAt(failures, k)
    ensures After(After(failures, k), 1) == After(failures, k + 1)
    ensures forall i: nat :: FailsAt(After(failures, 1), i) == FailsAt(failures, i + 1)
  {
  }

  /** The descriptor table of the process.  `failures` decides which calls fail, and the kernel may
      give out any number that is not in use, also one that was closed before. */
  class Process {
    var open: set<Descriptor>
    var failures: seq<bool>
    var suggestions: seq<Descriptor>
    ghost var places: map<Descriptor, Place>
    ghost var calls: seq<OpenCall>
    ghost var closes: nat

    ghost predicate Valid()
      reads this
    {
      open <= places.Keys
    }

    constructor (places: map<Descriptor, Place>, failures: seq<bool>, suggestions: seq<Descriptor>)
      ensures Valid() && open == places.Keys && this.places == places && calls == [] && closes == 0
    {
      this.open, this.failures, this.suggestions := places.Keys, failures, suggestions;
      this.places, calls, closes := places, [], 0;
    }

    method Fails() returns (fails: bool)
      modifies this`failures
      ensures fails == FailsAt(old(failures), 0) && failures == After(old(failures), 1)
    {
      fails := failures != [] && failures[0];
      failures := if failures == [] then [] else failures[1..];
    }

    method Unused() returns (fd: Descriptor)
      modifies this`suggestions
      ensures fd !in open
    {
      if suggestions != [] && suggestions[0] !in open {
        fd := suggestions[0];
        suggestions := suggestions[1..];
        return;
      }
      ghost var unused := Sets.Unused(open);
      fd :| fd !in open;
    }

    /** A new descriptor for a place, or a failure that opens nothing. */
    method NewDescriptor(ghost place: Place) returns (r: Result<Descriptor, Error>)
      requires Valid()
      modifies this`open, this`failures, this`suggestions, this`places
      ensures Valid()
      ensures r.Ok? ==>
        r.value !in old(open) && open == old(open) + {r.value} && places == old(places)[r.value := place]
      ensures r.Err? ==> r.error == OpenFailed && open == old(open) && places == old(places)
      ensures r.Err? <==> FailsAt(old(failures), 0)
      ensures failures == After(old(failures), 1)
    {
      var fails := Fails();
      if fails {
        return Err(OpenFailed);
      }
      var fd := Unused();
      open, places := open + {fd}, places[fd := place];
      return Ok(fd);
    }

    method OpenAt(parent: Descriptor, component: string, directory: bool) returns (r: Result<Descriptor, Error>)
      requires Valid() && parent in open
      modifies this
      ensures Valid()
      ensures r.Ok? ==> r.value !in old(open) && open == old(open) + {r.value}
      ensures r.Ok? ==> places == old(places)[r.value := old(places)[parent] + [component]]
      ensures r.Err? ==> r.error == OpenFailed && open == old(open) && places == old(places)
      ensures r.Err? <==> FailsAt(old(failures), 0)
      ensures failures == After(old(failures), 1)
      ensures calls == old(calls) + [OpenCall(parent, component, directory, r)] && closes == old(closes)
    {
      r := NewDescriptor(places[parent] + [component]);
      calls := calls + [OpenCall(parent, component, directory, r)];
    }

    /** Closing requires the descriptor to be open: no caller closes one twice. */
    method Close(fd: Descriptor)
      requires Valid() && fd in open
      modifies this`open, this`closes
      ensures Valid() && open == old(open) - {fd} && closes == old(closes) + 1
    {
      open := open - {fd};
      closes := closes + 1;
    }
  }

  predicate Traversable(component: string) {
    component != "" && component != "." && component != ".."
  }

  predicate AllTraversable(components: seq<string>) {
    forall i | 0 <= i < |components| :: Traversable(components[i])
  }

  /** The walk along these components meets no component to refuse and no call that fails. */
  ghost predicate Passable(components: seq<string>, failures: seq<bool>) {
    forall i | 0 <= i < |components| :: Traversable(components[i]) && !FailsAt(failures, i)
  }

  /** The components that the walk opened, and whether each had to be a directory. */
  ghost predicate Opened(calls: seq<OpenCall>, components: seq<string>, finalDirectory: bool) {
    && |calls| <= |components|
    && forall i | 0 <= i < |calls| ::
         && Traversable(components[i]) && calls[i].component == components[i]
         && calls[i].directory == (i < |components| - 1 || finalDirectory)
  }

  /** The first call opens relative to `start`, and every other relative to what the call before it opened. */
  ghost predicate Chained(calls: seq<OpenCall>, start: Descriptor) {
    && (calls != [] ==> calls[0].parent == start)
    && forall i, j | 0 <= i < j < |calls| && j == i + 1 :: calls[i].yielded == Ok(calls[j].parent)
  }

  /** What the last call opened, or `start` if there was none. */
  ghost function LastOf(calls: seq<OpenCall>, start: Descriptor): Result<Descriptor, Error> {
    if calls == [] then Ok(start) else calls[|calls| - 1].yielded
  }

  lemma OneMoreCall(calls: seq<OpenCall>, start: Descriptor, components: seq<string>, finalDirectory: bool, c: OpenCall)
    requires Chained(calls, start) && Opened(calls, components, finalDirectory)
    requires LastOf(calls, start) == Ok(c.parent)
    requires |calls| < |components| && Traversable(c.component) && components[|calls|] == c.component
    requires c.directory == (|calls| < |components| - 1 || finalDirectory)
    ensures Chained(calls + [c], start) && Opened(calls + [c], components, finalDirectory)
    ensures LastOf(calls + [c], start) == c.yielded
  {
  }

  /** The walk owns `startFD`: it closes it and everything it opens, except what it returns.  Each component is
      opened relative to the one before it, so what is returned lies at the end of the path.  There is
      one close for each call of `openat`, and one more when a component is refused. */
  method WalkOpenNoFollow(p: Process, startFD: Descriptor, relativePath: string, finalDirectory: bool)
    returns (r: Result<Descriptor, Error>, ghost made: seq<OpenCall>)
    requires p.Valid() && startFD in p.open
    modifies p
    ensures p.Valid()
    ensures r.Ok? ==> r.value !in old(p.open) - {startFD} && p.open == old(p.open) - {startFD} + {r.value}
    ensures r.Ok? <==> Passable(Split(relativePath, '/'), old(p.failures))
    ensures r.Ok? ==> p.places[r.value] == old(p.places)[startFD] + Split(relativePath, '/')
    ensures r.Err? ==> p.open == old(p.open) - {startFD}
    ensures forall fd | fd in old(p.open) - {startFD} :: p.places[fd] == old(p.places)[fd]
    ensures p.calls == old(p.calls) + made
    ensures Opened(made, Split(relativePath, '/'), finalDirectory) && Chained(made, startFD)
    ensures r.Ok? ==> |made| == |Split(relativePath, '/')| && LastOf(made, startFD) == r
    ensures p.closes == old(p.closes) + |made| + if r == Err(Refused) then 1 else 0
    ensures r == Err(Refused) ==> !AllTraversable(Split(relativePath, '/'))
  {
    var currentFD := startFD;
    var components := Split(relativePath, '/');
    hide Split, Opened, Chained, LastOf, After, FailsAt;
    made := [];
    assert After(p.failures, 0) == p.failures by { NothingFailed(p.failures); }
    NoCalls(startFD, components, finalDirectory);
    ghost var others := p.open - {startFD};
    for index := 0 to |components|
      invariant p.Valid() && currentFD in p.open && currentFD !in others && p.open == others + {currentFD}
      invariant p.places[currentFD] == old(p.places)[startFD] + components[..index]
      invariant forall fd | fd in others :: p.places[fd] == old(p.places)[fd]
      invariant p.calls == old(p.calls) + made && |made| == index
      invariant p.closes == old(p.closes) + index
      invariant Opened(made, components, finalDirectory) && Chained(made, startFD)
      invariant LastOf(made, startFD) == Ok(currentFD)
      invariant p.failures == After(old(p.failures), index)
      invariant forall i | 0 <= i < index :: Traversable(components[i]) && !FailsAt(old(p.failures), i)
    {
      AfterFails(old(p.failures), index);
      var component := components[index];
      if component == "" || component == "." || component == ".." {
        p.Close(currentFD);
        return Err(Refused), made;
      }
      var next := p.OpenAt(currentFD, component, index < |components| - 1 || finalDirectory);
      ghost var c := OpenCall(currentFD, component, index < |components| - 1 || finalDirectory, next);
      OneMoreCall(made, startFD, components, finalDirectory, c);
      made := made + [c];
      p.Close(currentFD);
      if next.Err? {
        return Err(next.error), made;
      }
      currentFD := next.value;
      assert components[..index + 1] == components[..index] + [component];
    }
    assert components[..|components|] == components;
    return Ok(currentFD), made;
  }

  lemma NothingFailed(failures: seq<bool>)
    ensures After(failures, 0) == failures
  {
  }

  lemma NoCalls(start: Descriptor, components: seq<string>, finalDirectory: bool)
    ensures Opened([], components, finalDirectory) && Chained([], start) && LastOf([], start) == Ok(start)
  {
  }

  /** `regular` says whether the file at the end turns out to be a regular one.  The caller's root
      descriptor stays open, and one more, for the file at the end of the path, is open exactly on success. */
  method OpenRelativeFileNoFollow(p: Process, rootFD: Descriptor, relativePath: string, regular: bool)
    returns (r: Result<Descriptor, Error>)
    requires p.Valid() && rootFD in p.open
    modifies p
    ensures p.Valid()
    ensures r.Ok? ==> r.value !in old(p.open) && p.open == old(p.open) + {r.value} && regular
    ensures r.Ok? <==>
      && regular && !FailsAt(old(p.failures), 0)
      && Passable(Split(relativePath, '/'), After(old(p.failures), 1))
    ensures r.Ok? ==> p.places[r.value] == old(p.places)[rootFD] + Split(relativePath, '/')
    ensures r.Err? ==> p.open == old(p.open)
    ensures r == Err(Refused) ==> !regular || !AllTraversable(Split(relativePath, '/'))
    ensures forall fd | fd in old(p.open) :: p.places[fd] == old(p.places)[fd]
  {
    hide Split, Opened, Chained, LastOf, Passable, FailsAt, After;
    var duplicate := p.NewDescriptor(p.places[rootFD]);
    if duplicate.Err? {
      return Err(duplicate.error);
    }
    var file, _ := WalkOpenNoFollow(p, duplicate.value, relativePath, false);
    if file.Err? {
      return Err(file.error);
    }
    if !regular {
      p.Close(file.value);
      return Err(Refused);
    }
    return Ok(file.value);
  }

  function TrimSlash(path: string): string {
    if path != "" && path[0] == '/' then path[1..] else path
  }

  /** `validJobOutputPath`: an absolute path that `filepath.Clean` leaves alone, other than the root. */
  predicate ValidOutputPath(path: string) {
    path != "" && path[0] == '/' && AllTraversable(Split(path[1..], '/'))
  }

  /** For a valid path nothing is refused on the way: only a call that fails, or a file that is not regular, can
      keep it from being opened. */
  method OpenAbsoluteFileNoFollow(p: Process, path: string, regular: bool) returns (r: Result<Descriptor, Error>)
    requires p.Valid()
    modifies p
    ensures p.Valid()
    ensures r.Ok? ==> r.value !in old(p.open) && p.open == old(p.open) + {r.value} && regular
    ensures r.Ok? <==>
      && ValidOutputPath(path) && regular && !FailsAt(old(p.failures), 0) && !FailsAt(old(p.failures), 1)
      && Passable(Split(TrimSlash(path), '/'), After(old(p.failures), 2))
    ensures r.Ok? ==> p.places[r.value] == Split(TrimSlash(path), '/')
    ensures r.Err? ==> p.open == old(p.open)
    ensures r == Err(Refused) ==> !regular || !ValidOutputPath(path)
    ensures forall fd | fd in old(p.open) :: p.places[fd] == old(p.places)[fd]
  {
    if !ValidOutputPath(path) {
      return Err(Refused);
    }
    hide Split, Passable;
    AfterFails(p.failures, 1);
    var root := p.NewDescriptor([]);
    if root.Err? {
      return Err(root.error);
    }
    r := OpenRelativeFileNoFollow(p, root.value, TrimSlash(path), regular);
    p.Close(root.value);
  }
}
