/** The checks of `validate` that are about strings (pkg/orchestrate/evaluation.go:361-401,
    pkg/orchestrate/evaluation_filesystem.go:86-113). */
module Envelope {
  import opened GpuIdentity

  /** The functions of package filepath on the platform the request is checked on. */
  datatype Host = Host(
    isAbs: string -> bool, clean: string -> string, dir: string -> string, volume: string -> string, windows: bool)

  /** The string-valued part of a request, what resolving its backend yields, and the path the action's store is
      bound to, if it says. */
  datatype Envelope = Envelope(
    host: Host, configured: bool, outputRoot: string, backend: string, resolved: Option<string>, fallbacks: nat,
    version: string, executable: string, engineToken: string, podmanPipe: string, reservationPath: string,
    bound: Option<string>)

  const PODMAN := "podman"
  const ACTION_VERSION := "nanovms.io/evaluation-action/v1"
  const DOCKER := "docker"
  const PIPE_PREFIX := "npipe:////./pipe/"

  /** unicode.IsSpace */
  predicate IsSpace(c: char) {
    var x := c as int;
    || 9 <= x <= 13 || x == 0x20 || x == 0x85 || x == 0xA0 || x == 0x1680 || 0x2000 <= x <= 0x200A
    || x == 0x2028 || x == 0x2029 || x == 0x202F || x == 0x205F || x == 0x3000
  }

  /** The white space of Unicode, one by one. */
  lemma SpacesExactly(c: char)
    ensures IsSpace(c) <==>
            c in "\t\n\U{0B}\U{0C}\r \U{85}\U{A0}\U{1680}\U{2000}\U{2001}\U{2002}\U{2003}\U{2004}\U{2005}\U{2006}"
                 + "\U{2007}\U{2008}\U{2009}\U{200A}\U{2028}\U{2029}\U{202F}\U{205F}\U{3000}"
  {
    var x := c as int;
    if 0x2000 <= x <= 0x200A {
      assert x == 0x2000 || x == 0x2001 || x == 0x2002 || x == 0x2003 || x == 0x2004 || x == 0x2005 || x == 0x2006
             || x == 0x2007 || x == 0x2008 || x == 0x2009 || x == 0x200A;
    }
  }

  predicate Blank(s: string) { forall i :: 0 <= i < |s| ==> IsSpace(s[i]) }

  predicate HasPrefix(s: string, prefix: string) { |prefix| <= |s| && s[..|prefix|] == prefix }

  function TrimPrefix(s: string, prefix: string): string {
    if HasPrefix(s, prefix) then s[|prefix|..] else s
  }

  lemma TrimPrefixExactly(s: string, prefix: string)
    ensures TrimPrefix(prefix + s, prefix) == s
    ensures !(prefix <= s) ==> TrimPrefix(s, prefix) == s
    ensures HasPrefix(s, prefix) <==> prefix <= s
  {
    assert (prefix + s)[..|prefix|] == prefix && (prefix + s)[|prefix|..] == s;
  }

  // ----- paths -----

  predicate IsSeparator(c: char) { c == '/' || c == '\\' }

  /** A whole component of `s`: bounded by separators or the ends. */
  predicate IsComponent(s: string, i: int, j: int) {
    && 0 <= i <= j <= |s| && (i == 0 || IsSeparator(s[i - 1])) && (j == |s| || IsSeparator(s[j]))
    && forall k :: i <= k < j ==> !IsSeparator(s[k])
  }

  predicate IsDots(s: string) { s == "." || s == ".." }

  ghost predicate HasTraversal(s: string) {
    exists i, j :: IsComponent(s, i, j) && IsDots(s[i..j])
  }

  ghost predicate Managed(h: Host, path: string) {
    && !Blank(path) && '\0' !in path && h.isAbs(path)
    && !(h.windows && HasPrefix(h.clean(path), "\\\\"))
    && h.clean(path) == path && h.dir(path) != path
    && !HasTraversal(TrimPrefix(path, h.volume(path)))
  }

  /** The loop over the components. */
  method FindTraversal(s: string) returns (found: bool)
    ensures found <==> HasTraversal(s)
  {
    var start := 0;
    for j := 0 to |s| + 1
      invariant 0 <= start <= j && (start == 0 || start == |s| + 1 || IsSeparator(s[start - 1]))
      invariant forall k :: start <= k < j && k < |s| ==> !IsSeparator(s[k])
      invariant forall a, b :: IsComponent(s, a, b) && b < j ==> !IsDots(s[a..b])
    {
      if j == |s| || IsSeparator(s[j]) {
        OneComponentEndsAt(s, start, j);
        if IsDots(s[start..j]) {
          return true;
        }
        start := j + 1;
      }
    }
    return false;
  }

  lemma OneComponentEndsAt(s: string, start: int, j: int)
    requires IsComponent(s, start, j)
    ensures forall a :: IsComponent(s, a, j) ==> a == start
  {
  }

  /** A traversal is "." or ".." between slashes of either kind, or at an end. */
  lemma TraversalExactly(s: string)
    ensures HasTraversal(s) <==>
            exists i, j ::
              && 0 <= i <= j <= |s| && (s[i..j] == "." || s[i..j] == "..")
              && (i == 0 || s[i - 1] == '/' || s[i - 1] == '\\') && (j == |s| || s[j] == '/' || s[j] == '\\')
  {
    forall i, j | 0 <= i <= j <= |s| && IsDots(s[i..j]) ensures forall k :: i <= k < j ==> !IsSeparator(s[k]) {
      forall k | i <= k < j ensures !IsSeparator(s[k]) {
        assert s[k] == s[i..j][k - i];
      }
    }
    if i, j :|
      && 0 <= i <= j <= |s| && (s[i..j] == "." || s[i..j] == "..")
      && (i == 0 || s[i - 1] == '/' || s[i - 1] == '\\') && (j == |s| || s[j] == '/' || s[j] == '\\')
    {
      assert IsComponent(s, i, j) && IsDots(s[i..j]);
    }
  }

  /** `validateManagedAbsolutePath` */
  method CheckManaged(h: Host, path: string) returns (ok: bool)
    ensures ok <==> Managed(h, path)
    ensures ok <==>
            && !Blank(path) && '\0' !in path && h.isAbs(path)
            && (h.windows && |path| >= 2 ==> path[..2] != "\\\\")
            && h.clean(path) == path && h.dir(path) != path
            && !HasTraversal(TrimPrefix(path, h.volume(path)))
  {
    if path == "" || Blank(path) || '\0' in path {
      return false;
    }
    if !h.isAbs(path) {
      return false;
    }
    var clean := h.clean(path);
    if h.windows && HasPrefix(clean, "\\\\") {
      return false;
    }
    if clean != path {
      return false;
    }
    if h.dir(clean) == clean {
      return false;
    }
    var found := FindTraversal(TrimPrefix(clean, h.volume(clean)));
    return !found;
  }

  // ----- the request -----

  ghost predicate WellAddressed(e: Envelope) {
    && e.configured && Managed(e.host, e.outputRoot)
    && e.resolved == Some(PODMAN) && e.backend == PODMAN && e.fallbacks == 0 && e.version == ACTION_VERSION
  }

  ghost predicate WellEquipped(e: Envelope) {
    && !Blank(e.executable) && '\0' !in e.executable && e.engineToken == DOCKER
    && HasPrefix(e.podmanPipe, PIPE_PREFIX) && e.podmanPipe != PIPE_PREFIX
    && Managed(e.host, e.reservationPath)
    && (e.bound.Some? ==> e.host.clean(e.bound.value) == e.host.clean(e.reservationPath))
  }

  /** Lines 361-379. */
  method CheckAddress(e: Envelope) returns (error: Option<string>)
    ensures error.None? <==> WellAddressed(e)
    ensures error.None? <==>
            && e.configured && Managed(e.host, e.outputRoot) && e.resolved == Some("podman") && e.backend == "podman"
            && e.fallbacks == 0 && e.version == "nanovms.io/evaluation-action/v1"
  {
    if !e.configured {
      return Some("adapter_unconfigured");
    }
    var ok := CheckManaged(e.host, e.outputRoot);
    if !ok {
      return Some("invalid_output_root");
    }
    if e.resolved.None? {
      return Some("provider_rejected");
    }
    if e.resolved.value != PODMAN || e.backend != PODMAN {
      return Some("provider_rejected");
    }
    if e.fallbacks != 0 {
      return Some("fallback_rejected");
    }
    if e.version != ACTION_VERSION {
      return Some("invalid_request");
    }
    return None;
  }

  /** Lines 384-401. */
  method CheckEquipment(e: Envelope) returns (error: Option<string>)
    ensures error.None? <==> WellEquipped(e)
    ensures error.None? <==>
            && !Blank(e.executable) && '\0' !in e.executable && e.engineToken == "docker"
            && |e.podmanPipe| > 17 && e.podmanPipe[..17] == "npipe:////./pipe/"
            && Managed(e.host, e.reservationPath)
            && (e.bound.Some? ==> e.host.clean(e.bound.value) == e.host.clean(e.reservationPath))
  {
    if Blank(e.executable) || '\0' in e.executable {
      return Some("invalid_request");
    }
    if e.engineToken != DOCKER {
      return Some("invalid_engine_token");
    }
    if !HasPrefix(e.podmanPipe, PIPE_PREFIX) || TrimPrefix(e.podmanPipe, PIPE_PREFIX) == "" {
      return Some("invalid_podman_pipe");
    }
    assert e.podmanPipe == PIPE_PREFIX + e.podmanPipe[|PIPE_PREFIX|..];
    var ok := CheckManaged(e.host, e.reservationPath);
    if !ok {
      return Some("invalid_reservation_path");
    }
    if e.bound.Some? && e.host.clean(e.bound.value) != e.host.clean(e.reservationPath) {
      return Some("invalid_reservation_path");
    }
    return None;
  }
}
