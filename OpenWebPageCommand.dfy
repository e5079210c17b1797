/** The Jenkins plugin's "open web page" command: the address it builds from
    its command data, the guard that enables it, and the address it launches. */
module OpenWebPageCommand {
  import opened Wrappers

  /** Path appended to a Jenkins address to reach its redirecting display page. */
  const RedirectPath: string := "/display/redirect"

  /** The command data: `Address` is a nullable string (None stands for null). */
  datatype CommandData = CommandData(address: Option<string>, redirect: bool)

  /** The untyped command parameter: command data, or anything else
      (another type, or null). */
  datatype Parameter = WebPage(data: CommandData) | Other

  /** What executing the command does: nothing, launch an address, or fail
      with a null reference while building the address. */
  datatype ExecuteOutcome = Nothing | Opens(url: string) | NullReference

  /** `n` copies of the character `c`. */
  function Repeat(c: char, n: nat): (r: string)
    ensures |r| == n
    ensures forall i :: 0 <= i < n ==> r[i] == c
  {
    if n == 0 then [] else Repeat(c, n - 1) + [c]
  }

  /** `p` is what remains of `s` once every trailing `c` is removed: a prefix
      of `s`, followed in `s` only by `c`, and not itself ending in `c`. */
  ghost predicate IsTrimOf(p: string, s: string, c: char)
  {
    p <= s
    && (forall i :: |p| <= i < |s| ==> s[i] == c)
    && (p == [] || p[|p| - 1] != c)
  }

  /** `String.TrimEnd(c)`: removes every trailing occurrence of `c`. */
  function TrimEnd(s: string, c: char): (r: string)
    ensures r <= s
    ensures forall i :: |r| <= i < |s| ==> s[i] == c
    ensures r == [] || r[|r| - 1] != c
  {
    if |s| > 0 && s[|s| - 1] == c then TrimEnd(s[..|s| - 1], c) else s
  }

  /** TrimEnd is the only string with the IsTrimOf property: two such
      prefixes of `s` cannot differ, since the longer one would end in `c`. */
  lemma TrimEndUnique(p: string, s: string, c: char)
    requires IsTrimOf(p, s, c)
    ensures TrimEnd(s, c) == p
  {
  }

  /** Both directions: a string is the trim of `s` exactly when TrimEnd returns it. */
  lemma TrimEndCharacterized(p: string, s: string, c: char)
    ensures IsTrimOf(p, s, c) <==> TrimEnd(s, c) == p
  {
    if IsTrimOf(p, s, c) {
      TrimEndUnique(p, s, c);
    }
  }

  /** Extra trailing `c`s make no difference to TrimEnd. */
  lemma TrimEndIgnoresTrailing(s: string, c: char, n: nat)
    ensures TrimEnd(s + Repeat(c, n), c) == TrimEnd(s, c)
  {
    var p := TrimEnd(s, c);
    var t := s + Repeat(c, n);
    assert p <= t by {
      assert forall i :: 0 <= i < |p| ==> t[i] == s[i];
    }
    TrimEndUnique(p, t, c);
  }

  /** Trimming twice is trimming once. */
  lemma TrimEndIdempotent(s: string, c: char)
    ensures TrimEnd(TrimEnd(s, c), c) == TrimEnd(s, c)
  {
    var p := TrimEnd(s, c);
    TrimEndUnique(p, p, c);
  }

  /** The `FullAddress` property: the address without trailing slashes,
      followed by RedirectPath when `Redirect` is set. `Address` must not be
      null: the trim is applied to it unguarded. */
  function FullAddress(d: CommandData): (r: string)
    requires d.address.Some?
    ensures |r| == 0 || r[|r| - 1] != '/'
    ensures d.redirect ==> |r| >= |RedirectPath| && r[|r| - |RedirectPath|..] == RedirectPath
    ensures !d.redirect ==> r <= d.address.value
  {
    TrimEnd(d.address.value, '/') + (if d.redirect then RedirectPath else "")
  }

  /** Without redirect, FullAddress is the address with its trailing slashes
      removed: a prefix of it, every dropped character a slash, and (since
      the trim is unique) nothing else. */
  lemma FullAddressWithoutRedirect(d: CommandData)
    requires d.address.Some? && !d.redirect
    ensures IsTrimOf(FullAddress(d), d.address.value, '/')
    ensures forall p :: IsTrimOf(p, d.address.value, '/') ==> p == FullAddress(d)
  {
    forall p | IsTrimOf(p, d.address.value, '/')
      ensures p == FullAddress(d)
    {
      TrimEndUnique(p, d.address.value, '/');
    }
  }

  /** With redirect, FullAddress is the non-redirect address followed by
      RedirectPath. */
  lemma FullAddressWithRedirect(d: CommandData)
    requires d.address.Some? && d.redirect
    ensures FullAddress(d) == FullAddress(d.(redirect := false)) + RedirectPath
  {
  }

  /** An address that is only slashes trims to nothing: FullAddress is empty
      without redirect and exactly RedirectPath with it. */
  lemma FullAddressOfSlashes(n: nat, redirect: bool)
    ensures FullAddress(CommandData(Some(Repeat('/', n)), redirect))
         == (if redirect then RedirectPath else "")
  {
    TrimEndIgnoresTrailing([], '/', n);
    assert [] + Repeat('/', n) == Repeat('/', n);
  }

  /** Trailing slashes on the address do not change FullAddress. */
  lemma FullAddressIgnoresTrailingSlashes(d: CommandData, n: nat)
    requires d.address.Some?
    ensures FullAddress(d.(address := Some(d.address.value + Repeat('/', n)))) == FullAddress(d)
  {
    TrimEndIgnoresTrailing(d.address.value, '/', n);
  }

  /** Feeding a non-redirect FullAddress back in as the address reproduces it. */
  lemma FullAddressIdempotent(d: CommandData)
    requires d.address.Some? && !d.redirect
    ensures FullAddress(CommandData(Some(FullAddress(d)), false)) == FullAddress(d)
  {
    TrimEndIdempotent(d.address.value, '/');
  }

  /** `CanExecute`: enabled only for command data whose address is set;
      an enabled command launches that data's FullAddress. */
  predicate CanExecute(p: Parameter)
    ensures CanExecute(p) ==>
              p.WebPage? && p.data.address.Some? && Execute(p) == Opens(FullAddress(p.data))
  {
    match p
    case WebPage(d) => !(d.address.None? || d.address.value == "")
    case Other => false
  }

  /** `Execute`: for command data it launches FullAddress (which fails on a
      null address); for any other parameter it does nothing. It does not
      consult CanExecute. */
  function Execute(p: Parameter): (o: ExecuteOutcome)
    ensures p.Other? <==> o.Nothing?
    ensures o.NullReference? <==> p.WebPage? && p.data.address.None?
    ensures p.WebPage? && p.data.address.Some? ==> o == Opens(FullAddress(p.data))
    ensures o.Opens? ==> |o.url| == 0 || o.url[|o.url| - 1] != '/'
  {
    match p
    case Other => Nothing
    case WebPage(d) => if d.address.None? then NullReference else Opens(FullAddress(d))
  }

  /** The guard holds exactly for command data with a non-null, non-empty
      address. */
  lemma CanExecuteExactly(p: Parameter)
    ensures CanExecute(p) <==> p.WebPage? && p.data.address.Some? && |p.data.address.value| > 0
  {
  }

  /** Execute does not consult the guard: a disabled parameter with an empty
      address and redirect set still launches RedirectPath. */
  lemma ExecuteIgnoresGuard()
    ensures !CanExecute(WebPage(CommandData(Some(""), true)))
    ensures Execute(WebPage(CommandData(Some(""), true))) == Opens(RedirectPath)
  {
    FullAddressOfSlashes(0, true);
  }

  /** The guard admits any non-empty address made only of slashes, and
      without redirect Execute then launches the empty string. */
  lemma GuardAdmitsEmptyLaunch(n: nat)
    requires n >= 1
    ensures CanExecute(WebPage(CommandData(Some(Repeat('/', n)), false)))
    ensures Execute(WebPage(CommandData(Some(Repeat('/', n)), false))) == Opens("")
  {
    FullAddressOfSlashes(n, false);
  }
}
