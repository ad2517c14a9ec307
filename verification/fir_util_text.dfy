/** What the fir_util generator writes, as values: the per-signature C++
    entities, the fragments of each artifact in the order they are written,
    and the full text of gr_fir_util.h and gr_fir_util.cc. */
module FirUtilText {
  import opened CppSyntax

  /** The generator's inputs: the ordered signature codes (e.g. "fcf"),
      the tap element type of each code, and the copyright banner. */
  datatype Config = Config(signatures: seq<string>, tapType: string -> string, copyright: string)

  // ---------------------------------------------------------------
  // Per-signature C++ entities

  /** The opaque filter class of a signature, e.g. gr_fir_fcf. */
  function FilterClass(sig: string): string
  {
    "gr_fir_" + sig
  }

  /** The info record type of a signature, e.g. gr_fir_fcf_info. */
  function InfoRecord(sig: string): string
  {
    FilterClass(sig) + "_info"
  }

  function TapsParam(tap: string): Param
  {
    Param("const std::vector<" + tap + "> &", "taps")
  }

  /** create_gr_fir_<sig>: takes the taps, returns a new filter. The entry
      point is named after the class it returns. */
  function CreateProto(sig: string, tap: string): (p: Proto)
    ensures p.ret.PointerTo? && p.name == "create_" + p.ret.cls
    ensures p.param.name == "taps"
  {
    Proto(PointerTo(FilterClass(sig)), "create_" + FilterClass(sig), TapsParam(tap))
  }

  /** get_gr_fir_<sig>_info: fills a vector of info records. It returns
      nothing, and the element type of its vector is its own name without
      the `get_` prefix. */
  function InfoProto(sig: string): (p: Proto)
    ensures p.ret == Void && p.param.name == "info"
    ensures |p.name| >= 4 && p.name[..4] == "get_"
    ensures p.param.ctype == "std::vector<" + p.name[4..] + "> *"
  {
    var name := "get_" + InfoRecord(sig);
    assert name[4..] == InfoRecord(sig);
    Proto(Void, name, Param("std::vector<" + InfoRecord(sig) + "> *", "info"))
  }

  /** The info record: the type get_gr_fir_<sig>_info fills, with exactly
      two fields, the name first and then a creator with the same return
      class and parameter as create_gr_fir_<sig>. */
  function InfoStructOf(sig: string, tap: string): (s: Struct)
    ensures InfoProto(sig).param.ctype == "std::vector<" + s.name + "> *"
    ensures |s.fields| == 2 && s.fields[0] == NameField
    ensures s.fields[1].CreatorField? && PointerTo(s.fields[1].cls) == CreateProto(sig, tap).ret
    ensures s.fields[1].param == CreateProto(sig, tap).param
  {
    Struct(InfoRecord(sig), [NameField, CreatorField(FilterClass(sig), TapsParam(tap))])
  }

  // ---------------------------------------------------------------
  // Fragments

  /** The four per-signature fragments of the header and the two of the
      implementation. */
  datatype Kind = ForwardDecl | InfoStruct | CreateDecl | InfoDecl | CreateDef | InfoDef

  /** One write to an output stream. */
  datatype Fragment =
    | CopyrightNotice
    | HeaderPreamble        // generated-file warning, include guard open, class comment
    | StructsHeading
    | UtilOpen              // `struct gr_fir_util {`
    | InfoDeclsHeading
    | UtilClose             // `};` and include guard close
    | ImplPreamble          // includes and the constructors heading
    | InfoGatherersHeading
    | PerSig(kind: Kind, sig: string)

  const GuardOpen := "#ifndef INCLUDED_GR_FIR_UTIL_H\n#define INCLUDED_GR_FIR_UTIL_H\n"
  const GuardClose := "#endif /* INCLUDED_GR_FIR_UTIL_H */\n"

  /** The banner warning that the header is generated. */
  const GeneratedWarning :=
    "\n/*\n"
    + " * WARNING: This file is automatically generated by\n"
    + " * generate_gr_fir_util.py.\n"
    + " *\n"
    + " * Any changes made to this file will be overwritten.\n"
    + " */\n\n"

  /** The class comment of gr_fir_util and the include of gr_types.h. */
  const ClassComment :=
    "\n/*!\n"
    + " * \\brief routines to create gr_fir_XXX's\n"
    + " *\n"
    + " * This class handles selecting the fastest version of the finite\n"
    + " * implulse response filter available for your platform.  This\n"
    + " * interface should be used by the rest of the system for creating\n"
    + " * gr_fir_XXX's.\n"
    + " *\n"
    + " * The trailing suffix has the form _IOT where I codes the input type,\n"
    + " * O codes the output type, and T codes the tap type.\n"
    + " * I,O,T are elements of the set 's' (short), 'f' (float), 'c' (gr_complex), \n"
    + " * 'i' (short)\n"
    + " */\n\n"
    + "#include <gr_types.h>\n\n"

  const HeaderPreambleText := GeneratedWarning + GuardOpen + ClassComment

  const StructsHeadingText := "\n// structures returned by get_gr_fir_XXX_info methods\n\n"

  const UtilOpenText := "\nstruct gr_fir_util {\n\n  // create a fast version of gr_fir_XXX.\n\n"

  const InfoDeclsHeadingText :=
    "\n  // Get information about all gr_fir_XXX implementations.\n"
    + "  // This is useful for benchmarking, testing, etc without having to\n"
    + "  // know a priori what's linked into this image\n"
    + "  //\n"
    + "  // The caller must pass in a valid pointer to a vector.\n"
    + "  // The vector will be filled with structs describing the\n"
    + "  // available implementations.\n\n"

  const UtilCloseText := "\n};\n\n" + GuardClose

  const IncludeUtil := "#include <gr_fir_util.h>\n"
  const IncludeSysconfig := "#include <gr_fir_sysconfig.h>\n"

  /** The opening of the implementation, up to the include of config.h. */
  const ConfigInclude := "\n\n#ifdef HAVE_CONFIG_H\n#include <config.h>\n#endif\n"

  /** The comment after the includes and the constructors heading. */
  const ConstructorsHeading :=
    "\n//\n"
    + "// There's no problem that can't be solved by the addition of\n"
    + "// another layer of indirection...\n"
    + "//\n\n"
    + "// --- constructors ---\n\n"

  const ImplPreambleText := ConfigInclude + IncludeUtil + IncludeSysconfig + ConstructorsHeading

  const InfoGatherersHeadingText := "\n// --- info gatherers ---\n\n"

  /** The text of one per-signature fragment, given the signature's tap type. */
  function KindText(kind: Kind, sig: string, tap: string): string
  {
    match kind
    case ForwardDecl => "class " + FilterClass(sig) + ";\n"
    case InfoStruct => StructText(InfoStructOf(sig, tap))
    case CreateDecl => DeclText(CreateProto(sig, tap))
    case InfoDecl => DeclText(InfoProto(sig))
    case CreateDef => DefinitionText(Delegation(CreateProto(sig, tap)))
    case InfoDef => DefinitionText(Delegation(InfoProto(sig)))
  }

  /** The text of a fragment that does not depend on a signature. */
  function FixedText(cfg: Config, f: Fragment): string
    requires !f.PerSig?
  {
    match f
    case CopyrightNotice => cfg.copyright
    case HeaderPreamble => HeaderPreambleText
    case StructsHeading => StructsHeadingText
    case UtilOpen => UtilOpenText
    case InfoDeclsHeading => InfoDeclsHeadingText
    case UtilClose => UtilCloseText
    case ImplPreamble => ImplPreambleText
    case InfoGatherersHeading => InfoGatherersHeadingText
  }

  function FragmentText(cfg: Config, f: Fragment): string
  {
    if f.PerSig? then KindText(f.kind, f.sig, cfg.tapType(f.sig)) else FixedText(cfg, f)
  }

  /** The renderer of one configuration, as a function value; the plan
      machinery below is generic in it. */
  function Render(cfg: Config): Fragment -> string
  {
    f => FragmentText(cfg, f)
  }

  /** The text written by a sequence of fragments, one write after another. */
  function RenderAll(render: Fragment -> string, plan: seq<Fragment>): string
  {
    if plan == [] then "" else RenderAll(render, plan[..|plan| - 1]) + render(plan[|plan| - 1])
  }

  /** Where fragment k of a plan starts in the rendered text. */
  function Offset(render: Fragment -> string, plan: seq<Fragment>, k: nat): nat
    requires k <= |plan|
  {
    |RenderAll(render, plan[..k])|
  }

  // ---------------------------------------------------------------
  // The two artifacts

  /** One loop over the signatures writing one fragment of `kind` each. */
  function Each(sigs: seq<string>, kind: Kind): seq<Fragment>
  {
    seq(|sigs|, i requires 0 <= i < |sigs| => PerSig(kind, sigs[i]))
  }

  function Region(render: Fragment -> string, sigs: seq<string>, kind: Kind): string
  {
    RenderAll(render, Each(sigs, kind))
  }

  /** The writes of make_gr_fir_util_h, in order. */
  function HeaderPlan(sigs: seq<string>): seq<Fragment>
  {
    [CopyrightNotice, HeaderPreamble]
    + Each(sigs, ForwardDecl)
    + [StructsHeading]
    + Each(sigs, InfoStruct)
    + [UtilOpen]
    + Each(sigs, CreateDecl)
    + [InfoDeclsHeading]
    + Each(sigs, InfoDecl)
    + [UtilClose]
  }

  /** The writes of make_gr_fir_util_cc, in order. */
  function ImplPlan(sigs: seq<string>): seq<Fragment>
  {
    [CopyrightNotice, ImplPreamble]
    + Each(sigs, CreateDef)
    + [InfoGatherersHeading]
    + Each(sigs, InfoDef)
  }

  /** The full text of gr_fir_util.h. */
  function HeaderText(cfg: Config): string
  {
    RenderAll(Render(cfg), HeaderPlan(cfg.signatures))
  }

  /** The full text of gr_fir_util.cc. */
  function ImplText(cfg: Config): string
  {
    RenderAll(Render(cfg), ImplPlan(cfg.signatures))
  }

  // ---------------------------------------------------------------
  // Vocabulary for the properties

  /** The region a fragment belongs to, numbered in the order the regions
      appear in their artifact. */
  function Rank(f: Fragment): nat
  {
    match f
    case CopyrightNotice => 0
    case HeaderPreamble => 1
    case ImplPreamble => 1
    case PerSig(ForwardDecl, _) => 2
    case PerSig(CreateDef, _) => 2
    case StructsHeading => 3
    case InfoGatherersHeading => 3
    case PerSig(InfoStruct, _) => 4
    case PerSig(InfoDef, _) => 4
    case UtilOpen => 5
    case PerSig(CreateDecl, _) => 6
    case InfoDeclsHeading => 7
    case PerSig(InfoDecl, _) => 8
    case UtilClose => 9
  }

  /** The signatures of the fragments of one kind, in plan order. */
  function SigsOf(plan: seq<Fragment>, kind: Kind): seq<string>
  {
    if plan == [] then []
    else
      var last := plan[|plan| - 1];
      SigsOf(plan[..|plan| - 1], kind) + (if last.PerSig? && last.kind == kind then [last.sig] else [])
  }

  predicate HeaderKind(kind: Kind)
  {
    kind in {ForwardDecl, InfoStruct, CreateDecl, InfoDecl}
  }

  predicate Distinct(sigs: seq<string>)
  {
    forall i, j :: 0 <= i < j < |sigs| ==> sigs[i] != sigs[j]
  }

  /** `piece` occurs in `text`. */
  predicate Contains(text: string, piece: string)
  {
    exists i :: 0 <= i <= |text| && piece <= text[i..]
  }
}
