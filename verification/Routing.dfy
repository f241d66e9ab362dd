/**
 The table of API handlers and the scan that finds the one a URI names.
 */
module Routing {
  import opened Common
  import opened Glob

  datatype Kind = Data | Array | Action | File | Ota | Custom | Websocket | Unknown

  /** An entry of the handler table; `settable` is false when its setter is NULL. */
  datatype Handler = Handler(name: string, kind: Kind, readLevel: int, writeLevel: int, settable: bool)

  /** The test of the scan: the name is a prefix that ends at a slash or at the end. */
  predicate Names(h: Handler, path: string) {
    && |h.name| <= |path| && path[..|h.name|] == h.name
    && (|path| > |h.name| ==> path[|h.name|] == '/')
  }

  function FirstNamed(hs: seq<Handler>, path: string): (r: Option<Handler>)
    ensures r.Some? ==> r.value in hs && Names(r.value, path)
    ensures r.None? ==> forall h :: h in hs ==> !Names(h, path)
  {
    if hs == [] then None
    else if Names(hs[0], path) then Some(hs[0])
    else FirstNamed(hs[1..], path)
  }

  function ApiHandler(hs: seq<Handler>, path: string): (r: Option<Handler>)
  {
    if path == "" then None else FirstNamed(hs, path)
  }

  /** The scan itself. */
  method GetApiHandler(hs: seq<Handler>, path: string) returns (r: Option<Handler>)
    ensures r == ApiHandler(hs, path)
  {
    if path == "" { return None; }
    for i := 0 to |hs|
      invariant FirstNamed(hs, path) == FirstNamed(hs[i..], path)
    {
      var h := hs[i];
      var n := |h.name|;
      if n > |path| { continue; }
      if path[..n] != h.name { continue; }
      if |path| > n && path[n] != '/' { continue; }
      return Some(h);
    }
    return None;
  }

  /** `find_handler`: what follows `/api/` is looked up. */
  function FindHandler(hs: seq<Handler>, uri: string): (r: Option<Handler>)
    ensures r.Some? ==> r.value in hs && "/api/" <= uri
  {
    if |uri| < 6 || uri[..5] != "/api/" then None else ApiHandler(hs, uri[5..])
  }

  // ------------------------------------------------------------ what it finds

  /** The part of a path before its first slash. */
  function FirstSegment(path: string): (r: string)
  {
    if path == "" || path[0] == '/' then "" else [path[0]] + FirstSegment(path[1..])
  }

  predicate WellNamed(hs: seq<Handler>) {
    && (forall i :: 0 <= i < |hs| ==> hs[i].name != "" && '/' !in hs[i].name)
    && (forall i, j :: 0 <= i < j < |hs| ==> hs[i].name != hs[j].name)
  }

  lemma {:induction false} NamesIsFirstSegment(name: string, path: string, h: Handler)
    requires h.name == name && '/' !in name
    ensures Names(h, path) <==> name == FirstSegment(path)
    decreases |path|
  {
    if name != "" && path != "" && path[0] == name[0] {
      NamesIsFirstSegment(name[1..], path[1..], h.(name := name[1..]));
      assert name == [name[0]] + name[1..];
      assert |name| <= |path| ==> path[..|name|] == [path[0]] + path[1..][..|name| - 1];
    } else if name != "" && path != "" {
      assert |name| <= |path| ==> path[..|name|][0] == path[0];
    }
  }

  /** With distinct, slash-free names the scan returns the handler whose name is
      the first segment of the path, and there is at most one. */
  lemma ScanFindsTheFirstSegment(hs: seq<Handler>, path: string, h: Handler)
    requires WellNamed(hs)
    ensures ApiHandler(hs, path) == Some(h) <==> h in hs && h.name == FirstSegment(path)
  {
    forall g | g in hs
      ensures Names(g, path) <==> g.name == FirstSegment(path)
    {
      NamesIsFirstSegment(g.name, path, g);
    }
    if path == "" && h in hs {
      assert h.name != "";
    }
  }

  /** The order of the table does not matter. */
  lemma OrderIsIrrelevant(hs: seq<Handler>, gs: seq<Handler>, uri: string)
    requires WellNamed(hs) && WellNamed(gs)
    requires forall h :: h in hs <==> h in gs
    ensures FindHandler(hs, uri) == FindHandler(gs, uri)
  {
  }

  // ------------------------------------------------------------ custom routes

  /** A custom route, guarded by its own levels. */
  datatype Route = Route(pattern: string, readLevel: int, writeLevel: int)

  /** `find_custom_handler`: the first route whose pattern matches. */
  function FindRoute(rs: seq<Route>, uri: string): (r: Option<Route>)
    ensures r.Some? ==> r.value in rs && MgMatch(uri, r.value.pattern)
  {
    if rs == [] then None
    else if MgMatch(uri, rs[0].pattern) then Some(rs[0])
    else FindRoute(rs[1..], uri)
  }

  /** Route `i` is the first of the list whose pattern matches. */
  predicate FirstMatch(rs: seq<Route>, uri: string, i: nat) {
    i < |rs| && MgMatch(uri, rs[i].pattern) && forall j :: 0 <= j < i ==> !MgMatch(uri, rs[j].pattern)
  }

  /** The first match is found wherever it stands, and none if there is none. */
  lemma {:induction false} FirstMatchIsFound(rs: seq<Route>, uri: string)
    ensures forall i: nat :: FirstMatch(rs, uri, i) ==> FindRoute(rs, uri) == Some(rs[i])
    ensures FindRoute(rs, uri).Some? <==> exists i: nat :: FirstMatch(rs, uri, i)
    ensures FindRoute(rs, uri).Some? <==> exists i :: 0 <= i < |rs| && MgMatch(uri, rs[i].pattern)
    decreases |rs|
  {
    hide MgMatch;
    if rs != [] {
      FirstMatchIsFound(rs[1..], uri);
      if MgMatch(uri, rs[0].pattern) {
        assert FirstMatch(rs, uri, 0);
      } else {
        forall i: nat | FirstMatch(rs, uri, i)
          ensures i > 0 && FirstMatch(rs[1..], uri, i - 1)
        {
          assert forall j :: 0 <= j < i - 1 ==> rs[1..][j] == rs[j + 1];
        }
        forall i: nat | FirstMatch(rs[1..], uri, i)
          ensures FirstMatch(rs, uri, i + 1)
        {
          assert forall j :: 1 <= j < i + 1 ==> rs[1..][j - 1] == rs[j];
        }
      }
    }
  }
}
