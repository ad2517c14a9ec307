/** The generator itself: each procedure writes its fragments to an output
    stream, and the two artifact writers are proved to leave exactly
    HeaderText and ImplText in their stream. */
module GenerateFirUtil {
  import opened CppSyntax
  import opened FirUtilText
  import opened FirUtilProperties
  import opened TextStream

  /** What a run leaves in gr_fir_util.h and gr_fir_util.cc. */
  datatype Artifacts = Artifacts(header: string, impl: string)

  /** Writes the info record of one signature. */
  method MakeInfoStruct(out: Stream, sig: string, tapType: string -> string)
    modifies out
    ensures out.text == old(out.text) + KindText(InfoStruct, sig, tapType(sig))
  {
    out.Write(StructText(InfoStructOf(sig, tapType(sig))));
  }

  /** Writes the declaration of create_gr_fir_<sig>. */
  method MakeCreate(out: Stream, sig: string, tapType: string -> string)
    modifies out
    ensures out.text == old(out.text) + KindText(CreateDecl, sig, tapType(sig))
  {
    out.Write(DeclText(CreateProto(sig, tapType(sig))));
  }

  /** Writes the declaration of get_gr_fir_<sig>_info. */
  method MakeInfo(out: Stream, sig: string)
    modifies out
    ensures out.text == old(out.text) + DeclText(InfoProto(sig))
  {
    out.Write(DeclText(InfoProto(sig)));
  }

  /** Writes the definition of create_gr_fir_<sig>. */
  method MakeConstructorCc(out: Stream, sig: string, tapType: string -> string)
    modifies out
    ensures out.text == old(out.text) + KindText(CreateDef, sig, tapType(sig))
  {
    out.Write(DefinitionText(Delegation(CreateProto(sig, tapType(sig)))));
  }

  /** Writes the definition of get_gr_fir_<sig>_info. */
  method MakeInfoCc(out: Stream, sig: string)
    modifies out
    ensures out.text == old(out.text) + DefinitionText(Delegation(InfoProto(sig)))
  {
    out.Write(DefinitionText(Delegation(InfoProto(sig))));
  }

  /** One turn of a per-signature loop: appending the fragment of the i-th
      signature extends the region written so far by one fragment. */
  lemma LoopStep(cfg: Config, before: string, i: nat, kind: Kind)
    requires i < |cfg.signatures|
    ensures var sigs, render := cfg.signatures, Render(cfg);
      before + Region(render, sigs[..i + 1], kind)
      == before + Region(render, sigs[..i], kind) + KindText(kind, sigs[i], cfg.tapType(sigs[i]))
  {
    var sigs, render := cfg.signatures, Render(cfg);
    RegionStep(render, sigs, i, kind);
    AppendAssoc(before, Region(render, sigs[..i], kind), render(PerSig(kind, sigs[i])));
  }

  /** The body of a per-signature loop: dispatches to the procedure that
      writes the fragment of `kind` for one signature. */
  method WriteFragment(out: Stream, cfg: Config, kind: Kind, sig: string)
    modifies out
    ensures out.text == old(out.text) + KindText(kind, sig, cfg.tapType(sig))
  {
    match kind {
      case ForwardDecl => out.Write("class " + FilterClass(sig) + ";\n");
      case InfoStruct => MakeInfoStruct(out, sig, cfg.tapType);
      case CreateDecl => MakeCreate(out, sig, cfg.tapType);
      case InfoDecl => MakeInfo(out, sig);
      case CreateDef => MakeConstructorCc(out, sig, cfg.tapType);
      case InfoDef => MakeInfoCc(out, sig);
    }
  }

  /** What each fragment that does not depend on a signature renders to. */
  lemma FixedTexts(cfg: Config)
    ensures var render := Render(cfg);
      && render(CopyrightNotice) == cfg.copyright
      && render(HeaderPreamble) == HeaderPreambleText
      && render(StructsHeading) == StructsHeadingText
      && render(UtilOpen) == UtilOpenText
      && render(InfoDeclsHeading) == InfoDeclsHeadingText
      && render(UtilClose) == UtilCloseText
      && render(ImplPreamble) == ImplPreambleText
      && render(InfoGatherersHeading) == InfoGatherersHeadingText
  {
  }

  /** One `for sig in fir_signatures` loop: writes the fragment of `kind`
      for every signature, in list order. */
  method WriteEach(out: Stream, cfg: Config, kind: Kind)
    modifies out
    ensures out.text == old(out.text) + Region(Render(cfg), cfg.signatures, kind)
  {
    var sigs := cfg.signatures;
    ghost var before := out.text;
    var i := 0;
    while i < |sigs|
      invariant 0 <= i <= |sigs|
      invariant out.text == before + Region(Render(cfg), sigs[..i], kind)
    {
      WriteFragment(out, cfg, kind, sigs[i]);
      LoopStep(cfg, before, i, kind);
      i := i + 1;
    }
    assert sigs[..i] == sigs;
  }

  /** Writes gr_fir_util.h and returns what the closed file holds. */
  method MakeFirUtilH(cfg: Config) returns (header: string)
    ensures header == HeaderText(cfg)
  {
    var sigs := cfg.signatures;
    ghost var render := Render(cfg);
    FixedTexts(cfg);
    var out := new Stream();
    out.Write(cfg.copyright);
    assert out.text == render(CopyrightNotice);
    out.Write(HeaderPreambleText);
    assert out.text == render(CopyrightNotice) + render(HeaderPreamble);
    WriteEach(out, cfg, ForwardDecl);
    out.Write(StructsHeadingText);
    ghost var written := out.text;
    assert written == render(CopyrightNotice) + render(HeaderPreamble)
      + Region(render, sigs, ForwardDecl) + render(StructsHeading);
    WriteEach(out, cfg, InfoStruct);
    out.Write(UtilOpenText);
    assert out.text == written + Region(render, sigs, InfoStruct) + render(UtilOpen);
    written := out.text;
    WriteEach(out, cfg, CreateDecl);
    out.Write(InfoDeclsHeadingText);
    assert out.text == written + Region(render, sigs, CreateDecl) + render(InfoDeclsHeading);
    written := out.text;
    WriteEach(out, cfg, InfoDecl);
    out.Write(UtilCloseText);
    assert out.text == written + Region(render, sigs, InfoDecl) + render(UtilClose);
    header := out.text;
    HeaderRegions(render, sigs);
  }

  /** Writes gr_fir_util.cc and returns what the closed file holds. */
  method MakeFirUtilCc(cfg: Config) returns (impl: string)
    ensures impl == ImplText(cfg)
  {
    var sigs := cfg.signatures;
    ghost var render := Render(cfg);
    FixedTexts(cfg);
    var out := new Stream();
    out.Write(cfg.copyright);
    assert out.text == render(CopyrightNotice);
    out.Write(ImplPreambleText);
    assert out.text == render(CopyrightNotice) + render(ImplPreamble);
    WriteEach(out, cfg, CreateDef);
    out.Write(InfoGatherersHeadingText);
    WriteEach(out, cfg, InfoDef);
    impl := out.text;
    ImplRegions(render, sigs);
  }

  /** Writes the header and then the implementation. */
  method Generate(cfg: Config) returns (artifacts: Artifacts)
    ensures artifacts.header == HeaderText(cfg)
    ensures artifacts.impl == ImplText(cfg)
  {
    var header := MakeFirUtilH(cfg);
    var impl := MakeFirUtilCc(cfg);
    artifacts := Artifacts(header, impl);
  }
}
