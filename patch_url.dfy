/** The URL-constructor shim: when the vendor SDK asks for its WASM asset
    without a base URL, the extension's assets directory is supplied as the
    base. Only the base-selection decision is modelled; the URL parsing done
    by the real constructor is not. */
module PatchUrl {
  import opened Wrappers
  import opened Strings

  const WasmFileName: string := "oak_session_wasm_nodejs_bg.wasm"

  /** A constructor argument: a string, or a URL object (whose `String(...)` is its href). */
  datatype UrlArg = Text(text: string) | UrlObject(href: string)

  function StringOf(a: UrlArg): string
  {
    match a
    case Text(text) => text
    case UrlObject(href) => href
  }

  /** The asset's href with its trailing run of non-`/` characters removed. */
  function WasmBase(href: string): (b: string)
    ensures |b| <= |href| && b == href[..|b|]
    ensures '/' !in href[|b|..]
    ensures b == [] || b[|b| - 1] == '/'
    ensures '/' in href <==> b != []
  {
    href[..LastIndexOf(href, '/') + 1]
  }

  /** The three properties of `WasmBase` pin it down: no other prefix ends at
      a `/` (or is empty) and leaves only `/`-free text behind. */
  lemma {:induction false} WasmBaseUnique(href: string, p: string)
    requires |p| <= |href| && p == href[..|p|]
    requires '/' !in href[|p|..]
    requires p == [] || p[|p| - 1] == '/'
    ensures p == WasmBase(href)
  {
  }

  /** For the asset's own href, `dir/oak_session_wasm_nodejs_bg.wasm`, the
      base is the directory with its trailing `/`. */
  lemma WasmBaseOfAssetHref(dir: string)
    ensures WasmBase(dir + "/" + WasmFileName) == dir + "/"
  {
    var href := dir + "/" + WasmFileName;
    assert href[..|dir| + 1] == dir + "/";
    assert href[|dir| + 1..] == WasmFileName;
    WasmBaseUnique(href, dir + "/");
  }

  /** The `isWasm` test exactly as written, both disjuncts included. The
      `input === filename` disjunct adds nothing: the test is the suffix
      test alone. */
  predicate IsWasm(input: UrlArg, base: Option<UrlArg>)
    ensures IsWasm(input, base) <==> base.None? && EndsWith(StringOf(input), WasmFileName)
  {
    base.None? && (input == Text(WasmFileName) || EndsWith(StringOf(input), WasmFileName))
  }

  /** The base handed to the original constructor: `wasmBase` when no base was
      given and the input names the asset, otherwise the caller's base. */
  function SelectBase(input: UrlArg, base: Option<UrlArg>, wasmBase: string): (r: Option<UrlArg>)
    ensures base.Some? ==> r == base
    ensures base.None? && EndsWith(StringOf(input), WasmFileName) ==> r == Some(Text(wasmBase))
    ensures base.None? && !EndsWith(StringOf(input), WasmFileName) ==> r == None
  {
    if IsWasm(input, base) then Some(Text(wasmBase)) else base
  }

  /** Selecting again on the selected base changes nothing, so a second
      patch layered over the first behaves like the first alone. */
  lemma SelectBaseIdempotent(input: UrlArg, base: Option<UrlArg>, wasmBase: string)
    ensures SelectBase(input, SelectBase(input, base, wasmBase), wasmBase) == SelectBase(input, base, wasmBase)
  {
  }
}
