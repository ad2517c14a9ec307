/** Properties of the two generated artifacts: the fragment templates, the
    layout and region order of each artifact, per-signature counts, the
    lockstep between header and implementation, and where each fragment
    lands in the text. */
module FirUtilProperties {
  import opened CppSyntax
  import opened FirUtilText

  // ---------------------------------------------------------------
  // Fragment templates

  /** Each per-signature fragment, written out with the signature code and
      its tap type substituted. The parentheses group the text of the
      filter class, entry-point name, parameter and statement that the
      fragment is built from; with them and the empty strings removed, each
      right-hand side is the format string at the line named above it. */
  lemma FragmentTemplates(sig: string, tap: string)
    // generate_gr_fir_util.py:80
    ensures KindText(ForwardDecl, sig, tap) == "class " + ("gr_fir_" + sig) + ";\n"
    // generate_gr_fir_util.py:27-32
    ensures KindText(InfoStruct, sig, tap) ==
      "\nstruct " + ("gr_fir_" + sig + "_info") + " {\n"
      + ("" + "  const char    *name;             // implementation name, e.g., \"generic\", \"SSE\", \"3DNow!\"\n"
         + ("  " + ("gr_fir_" + sig) + "\t*(*create)(" + ("const std::vector<" + tap + "> &" + "taps") + ");\n"))
      + "};\n"
    // generate_gr_fir_util.py:35-36
    ensures KindText(CreateDecl, sig, tap) ==
      "  static " + ("gr_fir_" + sig + " *") + ("create_" + ("gr_fir_" + sig))
      + " (" + ("const std::vector<" + tap + "> &" + "taps") + ");\n"
    // generate_gr_fir_util.py:39-40
    ensures KindText(InfoDecl, sig, tap) ==
      "  static " + "void " + ("get_" + ("gr_fir_" + sig + "_info"))
      + " (" + ("std::vector<" + ("gr_fir_" + sig + "_info") + "> *" + "info") + ");\n"
    // generate_gr_fir_util.py:123-129
    ensures KindText(CreateDef, sig, tap) ==
      "\n" + ("gr_fir_" + sig + " *") + "\n"
      + "gr_fir_util" + "::" + ("create_" + ("gr_fir_" + sig))
      + " (" + ("const std::vector<" + tap + "> &" + "taps") + ")\n"
      + "{\n"
      + ("" + ("  return " + ("gr_fir_sysconfig_singleton()" + "->" + ("create_" + ("gr_fir_" + sig)) + " (" + "taps" + ")") + ";\n"))
      + "}\n"
    // generate_gr_fir_util.py:134-140
    ensures KindText(InfoDef, sig, tap) ==
      "\n" + "void" + "\n"
      + "gr_fir_util" + "::" + ("get_" + ("gr_fir_" + sig + "_info"))
      + " (" + ("std::vector<" + ("gr_fir_" + sig + "_info") + "> *" + "info") + ")\n"
      + "{\n"
      + ("" + ("  " + ("gr_fir_sysconfig_singleton()" + "->" + ("get_" + ("gr_fir_" + sig + "_info")) + " (" + "info" + ")") + ";\n"))
      + "}\n"
  {
    var fields := [NameField, CreatorField("gr_fir_" + sig, TapsParam(tap))];
    assert fields[..1][..0] == [] && fields[..1] == [NameField];
    assert FieldsText(fields[..1]) == "" + FieldText(NameField);
    assert FieldsText(fields) == FieldsText(fields[..1]) + FieldText(fields[1]);
    assert InfoStructOf(sig, tap) == Struct("gr_fir_" + sig + "_info", fields);
    var create := Return(SingletonCall("create_" + ("gr_fir_" + sig), "taps"));
    assert [create][..0] == [];
    assert Delegation(CreateProto(sig, tap)) == Definition(CreateProto(sig, tap), [create]);
    assert BodyText([create]) == "" + StmtText(create);
    var info := Eval(SingletonCall("get_" + ("gr_fir_" + sig + "_info"), "info"));
    assert [info][..0] == [];
  }

  // ---------------------------------------------------------------
  // Code-derived names

  /** Distinct codes give distinct create entry points: the code can be
      read back from the name. */
  lemma CreateNameInjective(a: string, b: string, tapA: string, tapB: string)
    requires CreateProto(a, tapA).name == CreateProto(b, tapB).name
    ensures a == b
  {
    var prefix := "create_gr_fir_";
    assert CreateProto(a, tapA).name == prefix + a;
    assert CreateProto(b, tapB).name == prefix + b;
    assert (prefix + a)[|prefix|..] == a && (prefix + b)[|prefix|..] == b;
  }

  /** Distinct codes give distinct info entry points and distinct info
      record types. */
  lemma InfoNameInjective(a: string, b: string)
    requires InfoProto(a).name == InfoProto(b).name || InfoRecord(a) == InfoRecord(b)
    ensures a == b
  {
    var prefix, suffix := "gr_fir_", "_info";
    assert InfoRecord(a) == prefix + a + suffix && InfoRecord(b) == prefix + b + suffix;
    if InfoProto(a).name == InfoProto(b).name {
      assert InfoProto(a).name[4..] == InfoRecord(a) && InfoProto(b).name[4..] == InfoRecord(b);
    }
    assert (prefix + a + suffix)[|prefix|..|prefix| + |a|] == a;
    assert (prefix + b + suffix)[|prefix|..|prefix| + |b|] == b;
  }

  /** No create entry point shares its name with an info entry point, so
      each code yields two distinct members of gr_fir_util. */
  lemma CreateAndInfoNamesDiffer(a: string, b: string, tap: string)
    ensures CreateProto(a, tap).name != InfoProto(b).name
  {
    assert CreateProto(a, tap).name[0] == 'c';
    assert InfoProto(b).name[0] == 'g';
  }

  // ---------------------------------------------------------------
  // Rendering a plan

  lemma {:induction false} RenderAllAppend(render: Fragment -> string, a: seq<Fragment>, b: seq<Fragment>)
    ensures RenderAll(render, a + b) == RenderAll(render, a) + RenderAll(render, b)
    decreases |b|
  {
    if b == [] {
      assert a + b == a;
    } else {
      var b' := b[..|b| - 1];
      assert (a + b)[..|a + b| - 1] == a + b';
      RenderAllAppend(render, a, b');
    }
  }

  lemma AppendAssoc(a: string, b: string, c: string)
    ensures a + (b + c) == a + b + c
  {
  }

  /** A fragment that does not depend on a signature renders to its fixed
      text. */
  lemma FixedRender(cfg: Config, f: Fragment)
    requires !f.PerSig?
    ensures Render(cfg)(f) == FixedText(cfg, f)
  {
    assert FragmentText(cfg, f) == FixedText(cfg, f);
  }

  /** One more turn of a per-signature loop appends that signature's fragment. */
  lemma RegionStep(render: Fragment -> string, sigs: seq<string>, i: nat, kind: Kind)
    requires i < |sigs|
    ensures Region(render, sigs[..i + 1], kind) == Region(render, sigs[..i], kind) + render(PerSig(kind, sigs[i]))
  {
    assert Each(sigs[..i + 1], kind)[..i] == Each(sigs[..i], kind);
  }

  lemma RenderPair(render: Fragment -> string, f: Fragment, g: Fragment)
    ensures RenderAll(render, [f, g]) == render(f) + render(g)
  {
    assert [f, g][..1] == [f];
    assert [f][..0] == [];
    assert RenderAll(render, [f]) == render(f);
  }

  /** The header is, in this order: copyright, preamble with the include
      guard, forward declarations, info records, `struct gr_fir_util {`,
      create declarations, info declarations, `};` and the guard close. */
  lemma HeaderRegions(render: Fragment -> string, sigs: seq<string>)
    ensures RenderAll(render, HeaderPlan(sigs)) ==
      render(CopyrightNotice) + render(HeaderPreamble)
      + Region(render, sigs, ForwardDecl)
      + render(StructsHeading)
      + Region(render, sigs, InfoStruct)
      + render(UtilOpen)
      + Region(render, sigs, CreateDecl)
      + render(InfoDeclsHeading)
      + Region(render, sigs, InfoDecl)
      + render(UtilClose)
  {
    var p0 := [CopyrightNotice, HeaderPreamble];
    var p1 := p0 + Each(sigs, ForwardDecl);
    var p2 := p1 + [StructsHeading];
    var p3 := p2 + Each(sigs, InfoStruct);
    var p4 := p3 + [UtilOpen];
    var p5 := p4 + Each(sigs, CreateDecl);
    var p6 := p5 + [InfoDeclsHeading];
    var p7 := p6 + Each(sigs, InfoDecl);
    assert HeaderPlan(sigs) == p7 + [UtilClose];
    RenderPair(render, CopyrightNotice, HeaderPreamble);
    RenderAllAppend(render, p0, Each(sigs, ForwardDecl));
    RenderAllAppend(render, p1, [StructsHeading]);
    RenderAllAppend(render, p2, Each(sigs, InfoStruct));
    RenderAllAppend(render, p3, [UtilOpen]);
    RenderAllAppend(render, p4, Each(sigs, CreateDecl));
    RenderAllAppend(render, p5, [InfoDeclsHeading]);
    RenderAllAppend(render, p6, Each(sigs, InfoDecl));
    RenderAllAppend(render, p7, [UtilClose]);
  }

  /** The implementation is, in this order: copyright, preamble with the
      includes, create definitions, the info-gatherers heading, info
      definitions. */
  lemma ImplRegions(render: Fragment -> string, sigs: seq<string>)
    ensures RenderAll(render, ImplPlan(sigs)) ==
      render(CopyrightNotice) + render(ImplPreamble)
      + Region(render, sigs, CreateDef)
      + render(InfoGatherersHeading)
      + Region(render, sigs, InfoDef)
  {
    var p0 := [CopyrightNotice, ImplPreamble];
    var p1 := p0 + Each(sigs, CreateDef);
    var p2 := p1 + [InfoGatherersHeading];
    assert ImplPlan(sigs) == p2 + Each(sigs, InfoDef);
    RenderPair(render, CopyrightNotice, ImplPreamble);
    RenderAllAppend(render, p0, Each(sigs, CreateDef));
    RenderAllAppend(render, p1, [InfoGatherersHeading]);
    RenderAllAppend(render, p2, Each(sigs, InfoDef));
  }

  /** Both artifacts begin with the same copyright text. */
  lemma ArtifactsStartWithCopyright(cfg: Config)
    ensures cfg.copyright <= HeaderText(cfg)
    ensures cfg.copyright <= ImplText(cfg)
  {
    var sigs, render := cfg.signatures, Render(cfg);
    FixedRender(cfg, CopyrightNotice);
    FragmentAt(render, HeaderPlan(sigs), 0);
    FragmentAt(render, ImplPlan(sigs), 0);
  }

  /** The implementation's preamble includes gr_fir_util.h and
      gr_fir_sysconfig.h. */
  lemma PreambleIncludes()
    ensures Contains(ImplPreambleText, IncludeUtil)
    ensures Contains(ImplPreambleText, IncludeSysconfig)
  {
    ContainsMiddle(ConfigInclude, IncludeUtil, IncludeSysconfig);
    ContainsBefore(ConfigInclude + IncludeUtil + IncludeSysconfig, ConstructorsHeading, IncludeUtil);
    ContainsMiddle(ConfigInclude + IncludeUtil, IncludeSysconfig, ConstructorsHeading);
  }

  lemma ContainsBefore(a: string, b: string, piece: string)
    requires Contains(a, piece)
    ensures Contains(a + b, piece)
  {
    var i :| 0 <= i <= |a| && piece <= a[i..];
    assert (a + b)[i..] == a[i..] + b;
  }

  lemma ContainsInPrefix(text: string, pre: string, piece: string)
    requires pre <= text && Contains(pre, piece)
    ensures Contains(text[..|pre|], piece)
  {
    assert text[..|pre|] == pre;
  }

  /** In any rendering, the header starts with its copyright and banner
      fragments and ends with its closing fragment. */
  lemma HeaderEnds(render: Fragment -> string, sigs: seq<string>)
    ensures render(CopyrightNotice) + render(HeaderPreamble) <= RenderAll(render, HeaderPlan(sigs))
    ensures var plan := HeaderPlan(sigs);
      plan != [] && RenderAll(render, plan) == RenderAll(render, plan[..|plan| - 1]) + render(UtilClose)
  {
    var plan := HeaderPlan(sigs);
    HeaderLayout(sigs);
    assert plan[..2] == [CopyrightNotice, HeaderPreamble];
    RenderPair(render, CopyrightNotice, HeaderPreamble);
    assert plan == plan[..2] + plan[2..];
    RenderAllAppend(render, plan[..2], plan[2..]);
  }

  lemma ContainsMiddle(a: string, b: string, c: string)
    ensures Contains(a + b + c, b)
  {
    assert (a + b + c)[|a|..][..|b|] == b;
  }

  lemma BannerOpensGuard()
    ensures Contains(HeaderPreambleText, GuardOpen)
  {
    ContainsMiddle(GeneratedWarning, GuardOpen, ClassComment);
  }

  lemma CloseEndsGuard(prefix: string)
    ensures |GuardClose| <= |prefix + UtilCloseText|
    ensures (prefix + UtilCloseText)[|prefix + UtilCloseText| - |GuardClose|..] == GuardClose
  {
    var lead := "\n};\n\n";
    assert UtilCloseText == lead + GuardClose;
    assert prefix + UtilCloseText == (prefix + lead) + GuardClose;
  }

  lemma HeaderOpensGuard(cfg: Config)
    ensures cfg.copyright + HeaderPreambleText <= HeaderText(cfg)
    ensures Contains(HeaderPreambleText, GuardOpen)
  {
    FixedRender(cfg, CopyrightNotice);
    FixedRender(cfg, HeaderPreamble);
    HeaderEnds(Render(cfg), cfg.signatures);
    BannerOpensGuard();
  }

  /** Under any renderer that writes the source's closing text, the
      rendered header ends with the guard close. */
  lemma ClosesGuard(render: Fragment -> string, sigs: seq<string>)
    requires render(UtilClose) == UtilCloseText
    ensures |GuardClose| <= |RenderAll(render, HeaderPlan(sigs))|
    ensures var text := RenderAll(render, HeaderPlan(sigs));
      text[|text| - |GuardClose|..] == GuardClose
  {
    var plan := HeaderPlan(sigs);
    HeaderEnds(render, sigs);
    CloseEndsGuard(RenderAll(render, plan[..|plan| - 1]));
  }

  lemma HeaderClosesGuard(cfg: Config)
    ensures |GuardClose| <= |HeaderText(cfg)|
    ensures HeaderText(cfg)[|HeaderText(cfg)| - |GuardClose|..] == GuardClose
  {
    FixedRender(cfg, UtilClose);
    ClosesGuard(Render(cfg), cfg.signatures);
  }

  /** The header opens its include guard in the banner right after the
      copyright, and its last line closes the guard. */
  lemma HeaderGuarded(cfg: Config)
    ensures cfg.copyright + HeaderPreambleText <= HeaderText(cfg)
    ensures Contains(HeaderPreambleText, GuardOpen)
    ensures |GuardClose| <= |HeaderText(cfg)|
    ensures HeaderText(cfg)[|HeaderText(cfg)| - |GuardClose|..] == GuardClose
  {
    HeaderOpensGuard(cfg);
    HeaderClosesGuard(cfg);
  }

  lemma ContainsExtend(a: string, b: string, piece: string)
    requires Contains(b, piece)
    ensures Contains(a + b, piece)
  {
    var i :| 0 <= i <= |b| && piece <= b[i..];
    assert (a + b)[|a| + i..] == b[i..];
  }

  /** In any rendering, the implementation's first two fragments (copyright
      and preamble) make up the text before every definition. */
  lemma DefinitionsAfterPreamble(render: Fragment -> string, sigs: seq<string>, k: nat)
    requires k < |ImplPlan(sigs)| && ImplPlan(sigs)[k].PerSig?
    ensures var pre := render(CopyrightNotice) + render(ImplPreamble);
      && pre <= RenderAll(render, ImplPlan(sigs))
      && Offset(render, ImplPlan(sigs), 2) == |pre|
      && |pre| <= Offset(render, ImplPlan(sigs), k)
  {
    var plan := ImplPlan(sigs);
    ImplLayout(sigs);
    OffsetMonotone(render, plan, 2, k);
    assert plan[..2] == [CopyrightNotice, ImplPreamble];
    RenderPair(render, CopyrightNotice, ImplPreamble);
    assert plan == plan[..2] + plan[2..];
    RenderAllAppend(render, plan[..2], plan[2..]);
  }

  /** The implementation includes gr_fir_util.h and gr_fir_sysconfig.h in
      the text that precedes every create and info definition. */
  lemma IncludesBeforeDefinitions(cfg: Config, k: nat)
    requires k < |ImplPlan(cfg.signatures)| && ImplPlan(cfg.signatures)[k].PerSig?
    ensures var cut := Offset(Render(cfg), ImplPlan(cfg.signatures), 2);
      && cut <= Offset(Render(cfg), ImplPlan(cfg.signatures), k)
      && cut <= |ImplText(cfg)|
      && Contains(ImplText(cfg)[..cut], IncludeUtil)
      && Contains(ImplText(cfg)[..cut], IncludeSysconfig)
  {
    var render := Render(cfg);
    var pre := render(CopyrightNotice) + render(ImplPreamble);
    DefinitionsAfterPreamble(render, cfg.signatures, k);
    FixedRender(cfg, ImplPreamble);
    PreambleIncludes();
    ContainsExtend(render(CopyrightNotice), ImplPreambleText, IncludeUtil);
    ContainsExtend(render(CopyrightNotice), ImplPreambleText, IncludeSysconfig);
    ContainsInPrefix(ImplText(cfg), pre, IncludeUtil);
    ContainsInPrefix(ImplText(cfg), pre, IncludeSysconfig);
  }

  // ---------------------------------------------------------------
  // Layout of the plans

  /** Where every fragment of the header sits: the fixed fragments at
      their positions, and the k-th fragment of each of the four loops
      belonging to the k-th signature. */
  lemma HeaderLayout(sigs: seq<string>)
    ensures var plan, n := HeaderPlan(sigs), |sigs|;
      && |plan| == 4 * n + 6
      && plan[0] == CopyrightNotice && plan[1] == HeaderPreamble
      && plan[n + 2] == StructsHeading && plan[2 * n + 3] == UtilOpen
      && plan[3 * n + 4] == InfoDeclsHeading && plan[4 * n + 5] == UtilClose
      && (forall i :: 2 <= i < n + 2 ==> plan[i] == PerSig(ForwardDecl, sigs[i - 2]))
      && (forall i :: n + 3 <= i < 2 * n + 3 ==> plan[i] == PerSig(InfoStruct, sigs[i - n - 3]))
      && (forall i :: 2 * n + 4 <= i < 3 * n + 4 ==> plan[i] == PerSig(CreateDecl, sigs[i - 2 * n - 4]))
      && (forall i :: 3 * n + 5 <= i < 4 * n + 5 ==> plan[i] == PerSig(InfoDecl, sigs[i - 3 * n - 5]))
  {
    var n := |sigs|;
    var p0 := [CopyrightNotice, HeaderPreamble];
    var p1 := p0 + Each(sigs, ForwardDecl);
    var p2 := p1 + [StructsHeading];
    var p3 := p2 + Each(sigs, InfoStruct);
    var p4 := p3 + [UtilOpen];
    var p5 := p4 + Each(sigs, CreateDecl);
    var p6 := p5 + [InfoDeclsHeading];
    var p7 := p6 + Each(sigs, InfoDecl);
    var plan := p7 + [UtilClose];
    assert HeaderPlan(sigs) == plan;
    PrefixOf(p7, [UtilClose]);
    PrefixOf(p6, Each(sigs, InfoDecl));
    PrefixOf(p5, [InfoDeclsHeading]);
    PrefixOf(p4, Each(sigs, CreateDecl));
    PrefixOf(p3, [UtilOpen]);
    PrefixOf(p2, Each(sigs, InfoStruct));
    PrefixOf(p1, [StructsHeading]);
    PrefixOf(p0, Each(sigs, ForwardDecl));
    PrefixTrans(p6, p7, plan);
    PrefixTrans(p5, p6, plan);
    PrefixTrans(p4, p5, plan);
    PrefixTrans(p3, p4, plan);
    PrefixTrans(p2, p3, plan);
    PrefixTrans(p1, p2, plan);
    PrefixTrans(p0, p1, plan);
    RegionAt(plan, p0, sigs, ForwardDecl);
    RegionAt(plan, p2, sigs, InfoStruct);
    RegionAt(plan, p4, sigs, CreateDecl);
    RegionAt(plan, p6, sigs, InfoDecl);
    assert plan[n + 2] == p2[n + 2];
    assert plan[2 * n + 3] == p4[2 * n + 3];
    assert plan[3 * n + 4] == p6[3 * n + 4];
  }

  lemma PrefixOf(a: seq<Fragment>, b: seq<Fragment>)
    ensures a <= a + b
  {
    assert (a + b)[..|a|] == a;
  }

  lemma PrefixTrans(a: seq<Fragment>, b: seq<Fragment>, c: seq<Fragment>)
    requires a <= b && b <= c
    ensures a <= c
  {
    assert c[..|a|] == b[..|a|];
  }

  /** A loop's fragments, seen from a plan that extends them. */
  lemma RegionAt(plan: seq<Fragment>, pre: seq<Fragment>, sigs: seq<string>, kind: Kind)
    requires pre + Each(sigs, kind) <= plan
    ensures forall i :: |pre| <= i < |pre| + |sigs| ==> plan[i] == PerSig(kind, sigs[i - |pre|])
  {
    forall i | |pre| <= i < |pre| + |sigs|
      ensures plan[i] == PerSig(kind, sigs[i - |pre|])
    {
      assert plan[i] == (pre + Each(sigs, kind))[i];
    }
  }

  /** Where every fragment of the implementation sits. */
  lemma ImplLayout(sigs: seq<string>)
    ensures var plan, n := ImplPlan(sigs), |sigs|;
      && |plan| == 2 * n + 3
      && plan[0] == CopyrightNotice && plan[1] == ImplPreamble
      && plan[n + 2] == InfoGatherersHeading
      && (forall i :: 2 <= i < n + 2 ==> plan[i] == PerSig(CreateDef, sigs[i - 2]))
      && (forall i :: n + 3 <= i < 2 * n + 3 ==> plan[i] == PerSig(InfoDef, sigs[i - n - 3]))
  {
    var n := |sigs|;
    var p0 := [CopyrightNotice, ImplPreamble];
    var p1 := p0 + Each(sigs, CreateDef);
    var p2 := p1 + [InfoGatherersHeading];
    var plan := p2 + Each(sigs, InfoDef);
    assert ImplPlan(sigs) == plan;
    assert forall i :: 0 <= i < |p2| ==> plan[i] == p2[i];
    assert forall i :: 0 <= i < |p1| ==> p2[i] == p1[i];
    assert forall i :: 0 <= i < |p0| ==> p1[i] == p0[i];
  }

  /** Where the k-th signature's fragment of a header kind sits. */
  function HeaderPos(n: nat, kind: Kind, k: nat): nat
  {
    match kind
    case ForwardDecl => k + 2
    case InfoStruct => n + 3 + k
    case CreateDecl => 2 * n + 4 + k
    case _ => 3 * n + 5 + k
  }

  lemma HeaderAt(sigs: seq<string>, kind: Kind, k: nat)
    requires HeaderKind(kind) && k < |sigs|
    ensures HeaderPos(|sigs|, kind, k) < |HeaderPlan(sigs)|
    ensures HeaderPlan(sigs)[HeaderPos(|sigs|, kind, k)] == PerSig(kind, sigs[k])
  {
    HeaderLayout(sigs);
  }

  /** Where the a-th create definition, the info-gatherers heading and
      the b-th info definition sit in the implementation plan. */
  lemma ImplAt(sigs: seq<string>, a: nat, b: nat)
    requires a < |sigs| && b < |sigs|
    ensures |ImplPlan(sigs)| == 2 * |sigs| + 3
    ensures ImplPlan(sigs)[a + 2] == PerSig(CreateDef, sigs[a])
    ensures ImplPlan(sigs)[|sigs| + 2] == InfoGatherersHeading
    ensures ImplPlan(sigs)[|sigs| + 3 + b] == PerSig(InfoDef, sigs[b])
  {
    ImplLayout(sigs);
  }

  /** The region rank a header index falls in. */
  function HeaderBand(n: nat, i: nat): nat
  {
    if i < 2 then i
    else if i < n + 2 then 2
    else if i == n + 2 then 3
    else if i < 2 * n + 3 then 4
    else if i == 2 * n + 3 then 5
    else if i < 3 * n + 4 then 6
    else if i == 3 * n + 4 then 7
    else if i < 4 * n + 5 then 8
    else 9
  }

  lemma HeaderBandAt(sigs: seq<string>, i: nat)
    requires i < |HeaderPlan(sigs)|
    ensures Rank(HeaderPlan(sigs)[i]) == HeaderBand(|sigs|, i)
  {
    HeaderLayout(sigs);
  }

  /** The header's regions never interleave: a fragment never comes after
      a fragment of a later region. */
  lemma HeaderRegionOrder(sigs: seq<string>)
    ensures forall i, j :: 0 <= i < j < |HeaderPlan(sigs)| ==> Rank(HeaderPlan(sigs)[i]) <= Rank(HeaderPlan(sigs)[j])
  {
    forall i, j | 0 <= i < j < |HeaderPlan(sigs)|
      ensures Rank(HeaderPlan(sigs)[i]) <= Rank(HeaderPlan(sigs)[j])
    {
      HeaderBandAt(sigs, i);
      HeaderBandAt(sigs, j);
    }
  }

  /** The region rank an implementation index falls in. */
  function ImplBand(n: nat, i: nat): nat
  {
    if i < 2 then i
    else if i < n + 2 then 2
    else if i == n + 2 then 3
    else 4
  }

  lemma ImplBandAt(sigs: seq<string>, i: nat)
    requires i < |ImplPlan(sigs)|
    ensures Rank(ImplPlan(sigs)[i]) == ImplBand(|sigs|, i)
  {
    ImplLayout(sigs);
  }

  /** The implementation's regions never interleave. */
  lemma ImplRegionOrder(sigs: seq<string>)
    ensures forall i, j :: 0 <= i < j < |ImplPlan(sigs)| ==> Rank(ImplPlan(sigs)[i]) <= Rank(ImplPlan(sigs)[j])
  {
    forall i, j | 0 <= i < j < |ImplPlan(sigs)|
      ensures Rank(ImplPlan(sigs)[i]) <= Rank(ImplPlan(sigs)[j])
    {
      ImplBandAt(sigs, i);
      ImplBandAt(sigs, j);
    }
  }

  // ---------------------------------------------------------------
  // Lockstep: every per-signature loop visits the signatures in list order

  lemma {:induction false} SigsOfAppend(a: seq<Fragment>, b: seq<Fragment>, kind: Kind)
    ensures SigsOf(a + b, kind) == SigsOf(a, kind) + SigsOf(b, kind)
    decreases |b|
  {
    if b == [] {
      assert a + b == a;
    } else {
      var b' := b[..|b| - 1];
      assert (a + b)[..|a + b| - 1] == a + b';
      SigsOfAppend(a, b', kind);
    }
  }

  lemma {:induction false} SigsOfEach(sigs: seq<string>, k: Kind, kind: Kind)
    ensures SigsOf(Each(sigs, k), kind) == if k == kind then sigs else []
    decreases |sigs|
  {
    if sigs != [] {
      var init := sigs[..|sigs| - 1];
      assert Each(sigs, k)[..|sigs| - 1] == Each(init, k);
      SigsOfEach(init, k, kind);
      assert init + [sigs[|sigs| - 1]] == sigs;
    }
  }

  /** For each of its four kinds, the header's fragments name exactly the
      signature list, in list order; it has no fragment of the other kinds. */
  lemma HeaderSigs(sigs: seq<string>, kind: Kind)
    ensures SigsOf(HeaderPlan(sigs), kind) == if HeaderKind(kind) then sigs else []
  {
    var p0: seq<Fragment> := [CopyrightNotice, HeaderPreamble];
    var p1 := p0 + Each(sigs, ForwardDecl);
    var p2 := p1 + [StructsHeading];
    var p3 := p2 + Each(sigs, InfoStruct);
    var p4 := p3 + [UtilOpen];
    var p5 := p4 + Each(sigs, CreateDecl);
    var p6 := p5 + [InfoDeclsHeading];
    var p7 := p6 + Each(sigs, InfoDecl);
    assert HeaderPlan(sigs) == p7 + [UtilClose];
    SigsOfFixed(p0, kind);
    SigsOfEachAfter(p0, sigs, ForwardDecl, kind);
    SigsOfFixedAfter(p1, StructsHeading, kind);
    SigsOfEachAfter(p2, sigs, InfoStruct, kind);
    SigsOfFixedAfter(p3, UtilOpen, kind);
    SigsOfEachAfter(p4, sigs, CreateDecl, kind);
    SigsOfFixedAfter(p5, InfoDeclsHeading, kind);
    SigsOfEachAfter(p6, sigs, InfoDecl, kind);
    SigsOfFixedAfter(p7, UtilClose, kind);
  }

  lemma SigsOfFixed(p: seq<Fragment>, kind: Kind)
    requires |p| == 2 && !p[0].PerSig? && !p[1].PerSig?
    ensures SigsOf(p, kind) == []
  {
    assert p[..1][..0] == [];
    assert |p[..1]| == 1 && p[..1][0] == p[0];
    assert SigsOf(p[..1], kind) == [];
  }

  lemma SigsOfFixedAfter(p: seq<Fragment>, f: Fragment, kind: Kind)
    requires !f.PerSig?
    ensures SigsOf(p + [f], kind) == SigsOf(p, kind)
  {
    assert (p + [f])[..|p|] == p;
  }

  lemma SigsOfEachAfter(p: seq<Fragment>, sigs: seq<string>, k: Kind, kind: Kind)
    ensures SigsOf(p + Each(sigs, k), kind) == SigsOf(p, kind) + if k == kind then sigs else []
  {
    SigsOfAppend(p, Each(sigs, k), kind);
    SigsOfEach(sigs, k, kind);
  }

  /** For both of its kinds, the implementation's fragments name exactly the
      signature list, in list order, so the k-th create and info
      definitions match the header's k-th declarations. */
  lemma ImplSigs(sigs: seq<string>, kind: Kind)
    ensures SigsOf(ImplPlan(sigs), kind) == if kind == CreateDef || kind == InfoDef then sigs else []
    ensures SigsOf(ImplPlan(sigs), CreateDef) == SigsOf(HeaderPlan(sigs), CreateDecl)
    ensures SigsOf(ImplPlan(sigs), InfoDef) == SigsOf(HeaderPlan(sigs), InfoDecl)
  {
    ImplSigsOf(sigs, kind);
    ImplSigsOf(sigs, CreateDef);
    ImplSigsOf(sigs, InfoDef);
    HeaderSigs(sigs, CreateDecl);
    HeaderSigs(sigs, InfoDecl);
  }

  lemma ImplSigsOf(sigs: seq<string>, kind: Kind)
    ensures SigsOf(ImplPlan(sigs), kind) == if kind == CreateDef || kind == InfoDef then sigs else []
  {
    var p0: seq<Fragment> := [CopyrightNotice, ImplPreamble];
    var p1 := p0 + Each(sigs, CreateDef);
    var p2 := p1 + [InfoGatherersHeading];
    assert ImplPlan(sigs) == p2 + Each(sigs, InfoDef);
    SigsOfFixed(p0, kind);
    SigsOfEachAfter(p0, sigs, CreateDef, kind);
    SigsOfFixedAfter(p1, InfoGatherersHeading, kind);
    SigsOfEachAfter(p2, sigs, InfoDef, kind);
  }

  // ---------------------------------------------------------------
  // Counts

  lemma {:induction false} EachCount(sigs: seq<string>, k: Kind, f: Fragment)
    ensures multiset(Each(sigs, k))[f] == if f.PerSig? && f.kind == k then multiset(sigs)[f.sig] else 0
    decreases |sigs|
  {
    if sigs != [] {
      var init, last := sigs[..|sigs| - 1], sigs[|sigs| - 1];
      assert Each(sigs, k) == Each(init, k) + [PerSig(k, last)];
      assert sigs == init + [last];
      EachCount(init, k, f);
    }
  }

  /** A signature's fragment of each header kind occurs as often as the
      signature occurs in the list; the other kinds never occur. */
  lemma HeaderOccurrences(sigs: seq<string>, kind: Kind, s: string)
    ensures multiset(HeaderPlan(sigs))[PerSig(kind, s)] == if HeaderKind(kind) then multiset(sigs)[s] else 0
  {
    var f := PerSig(kind, s);
    EachCount(sigs, ForwardDecl, f);
    EachCount(sigs, InfoStruct, f);
    EachCount(sigs, CreateDecl, f);
    EachCount(sigs, InfoDecl, f);
  }

  /** The same for the implementation and its two kinds. */
  lemma ImplOccurrences(sigs: seq<string>, kind: Kind, s: string)
    ensures multiset(ImplPlan(sigs))[PerSig(kind, s)] == if kind == CreateDef || kind == InfoDef then multiset(sigs)[s] else 0
  {
    var f := PerSig(kind, s);
    EachCount(sigs, CreateDef, f);
    EachCount(sigs, InfoDef, f);
  }

  lemma {:induction false} DistinctCount(sigs: seq<string>, s: string)
    requires Distinct(sigs)
    ensures multiset(sigs)[s] == if s in sigs then 1 else 0
    decreases |sigs|
  {
    if sigs != [] {
      var init, last := sigs[..|sigs| - 1], sigs[|sigs| - 1];
      assert sigs == init + [last];
      DistinctCount(init, s);
      if s == last {
        assert s !in init;
      }
    }
  }

  /** With distinct codes, every signature in the list gets exactly one
      fragment of each of the header's four kinds and of the
      implementation's two. */
  lemma ExactlyOnce(sigs: seq<string>, s: string)
    requires Distinct(sigs) && s in sigs
    ensures forall kind :: HeaderKind(kind) ==> multiset(HeaderPlan(sigs))[PerSig(kind, s)] == 1
    ensures forall kind :: kind == CreateDef || kind == InfoDef ==> multiset(ImplPlan(sigs))[PerSig(kind, s)] == 1
  {
    DistinctCount(sigs, s);
    forall kind | HeaderKind(kind)
      ensures multiset(HeaderPlan(sigs))[PerSig(kind, s)] == 1
    {
      HeaderOccurrences(sigs, kind, s);
    }
    forall kind | kind == CreateDef || kind == InfoDef
      ensures multiset(ImplPlan(sigs))[PerSig(kind, s)] == 1
    {
      ImplOccurrences(sigs, kind, s);
    }
  }

  /** A code that is not in the list leaves no per-signature fragment in
      either artifact. */
  lemma NoResidue(sigs: seq<string>, s: string)
    requires s !in sigs
    ensures forall kind :: PerSig(kind, s) !in HeaderPlan(sigs) && PerSig(kind, s) !in ImplPlan(sigs)
  {
    forall kind
      ensures PerSig(kind, s) !in HeaderPlan(sigs) && PerSig(kind, s) !in ImplPlan(sigs)
    {
      HeaderOccurrences(sigs, kind, s);
      ImplOccurrences(sigs, kind, s);
    }
  }

  // ---------------------------------------------------------------
  // Where fragments land in the text

  /** Fragment k's text sits in the rendered plan between its own offset and
      the next fragment's. */
  lemma FragmentAt(render: Fragment -> string, plan: seq<Fragment>, k: nat)
    requires k < |plan|
    ensures Offset(render, plan, k) + |render(plan[k])| == Offset(render, plan, k + 1) <= |RenderAll(render, plan)|
    ensures RenderAll(render, plan)[Offset(render, plan, k)..Offset(render, plan, k + 1)] == render(plan[k])
  {
    assert plan[..k + 1] + plan[k + 1..] == plan;
    assert plan[..k + 1][..k] == plan[..k];
    RenderAllAppend(render, plan[..k + 1], plan[k + 1..]);
  }

  lemma FragmentContained(render: Fragment -> string, plan: seq<Fragment>, k: nat)
    requires k < |plan|
    ensures Contains(RenderAll(render, plan), render(plan[k]))
  {
    FragmentAt(render, plan, k);
    var text, i := RenderAll(render, plan), Offset(render, plan, k);
    assert text[i..][..|render(plan[k])|] == render(plan[k]);
  }

  lemma OffsetMonotone(render: Fragment -> string, plan: seq<Fragment>, i: nat, j: nat)
    requires i <= j <= |plan|
    ensures Offset(render, plan, i) <= Offset(render, plan, j)
  {
    assert plan[..j] == plan[..i] + plan[i..j];
    RenderAllAppend(render, plan[..i], plan[i..j]);
  }

  /** In the header text, a fragment of an earlier region ends before any
      fragment of a later region starts; in particular every create
      declaration ends before the first info declaration. */
  lemma HeaderTextOrder(render: Fragment -> string, sigs: seq<string>, i: nat, j: nat)
    requires i < |HeaderPlan(sigs)| && j < |HeaderPlan(sigs)|
    requires Rank(HeaderPlan(sigs)[i]) < Rank(HeaderPlan(sigs)[j])
    ensures Offset(render, HeaderPlan(sigs), i + 1) <= Offset(render, HeaderPlan(sigs), j)
  {
    HeaderRegionOrder(sigs);
    OffsetMonotone(render, HeaderPlan(sigs), i + 1, j);
  }

  /** The same for the implementation: every create definition ends before
      the info-gatherers heading, which ends before the first info
      definition. */
  lemma ImplTextOrder(render: Fragment -> string, sigs: seq<string>, i: nat, j: nat)
    requires i < |ImplPlan(sigs)| && j < |ImplPlan(sigs)|
    requires Rank(ImplPlan(sigs)[i]) < Rank(ImplPlan(sigs)[j])
    ensures Offset(render, ImplPlan(sigs), i + 1) <= Offset(render, ImplPlan(sigs), j)
  {
    ImplRegionOrder(sigs);
    OffsetMonotone(render, ImplPlan(sigs), i + 1, j);
  }

  /** Every create declaration of the header, whichever its signature,
      ends before any info declaration starts. */
  lemma CreateDeclsBeforeInfoDecls(render: Fragment -> string, sigs: seq<string>, a: nat, b: nat)
    requires a < |sigs| && b < |sigs|
    ensures HeaderPos(|sigs|, CreateDecl, a) < HeaderPos(|sigs|, InfoDecl, b) < |HeaderPlan(sigs)|
    ensures Offset(render, HeaderPlan(sigs), HeaderPos(|sigs|, CreateDecl, a) + 1)
      <= Offset(render, HeaderPlan(sigs), HeaderPos(|sigs|, InfoDecl, b))
  {
    HeaderAt(sigs, CreateDecl, a);
    HeaderAt(sigs, InfoDecl, b);
    HeaderTextOrder(render, sigs, HeaderPos(|sigs|, CreateDecl, a), HeaderPos(|sigs|, InfoDecl, b));
  }

  /** In the implementation, every create definition ends before the
      info-gatherers heading, and the heading ends before every info
      definition. */
  lemma CreateDefsBeforeInfoDefs(render: Fragment -> string, sigs: seq<string>, a: nat, b: nat)
    requires a < |sigs| && b < |sigs|
    ensures |ImplPlan(sigs)| == 2 * |sigs| + 3
    ensures ImplPlan(sigs)[a + 2] == PerSig(CreateDef, sigs[a])
    ensures ImplPlan(sigs)[|sigs| + 2] == InfoGatherersHeading
    ensures ImplPlan(sigs)[|sigs| + 3 + b] == PerSig(InfoDef, sigs[b])
    ensures Offset(render, ImplPlan(sigs), a + 3) <= Offset(render, ImplPlan(sigs), |sigs| + 2)
    ensures Offset(render, ImplPlan(sigs), |sigs| + 3) <= Offset(render, ImplPlan(sigs), |sigs| + 3 + b)
  {
    var plan, n := ImplPlan(sigs), |sigs|;
    ImplAt(sigs, a, b);
    OffsetMonotone(render, plan, a + 3, n + 2);
    OffsetMonotone(render, plan, n + 3, n + 3 + b);
  }

  /** Every signature in the list has its forward declaration, info
      record, create declaration and info declaration in the header text. */
  lemma HeaderFragmentsPresent(render: Fragment -> string, sigs: seq<string>, s: string, kind: Kind)
    requires s in sigs && HeaderKind(kind)
    ensures Contains(RenderAll(render, HeaderPlan(sigs)), render(PerSig(kind, s)))
  {
    var k :| 0 <= k < |sigs| && sigs[k] == s;
    HeaderAt(sigs, kind, k);
    FragmentContained(render, HeaderPlan(sigs), HeaderPos(|sigs|, kind, k));
  }

  /** Every signature in the list has its create and info definitions in
      the implementation text. */
  lemma ImplFragmentsPresent(render: Fragment -> string, sigs: seq<string>, s: string, kind: Kind)
    requires s in sigs && (kind == CreateDef || kind == InfoDef)
    ensures Contains(RenderAll(render, ImplPlan(sigs)), render(PerSig(kind, s)))
  {
    var n, plan := |sigs|, ImplPlan(sigs);
    var k :| 0 <= k < n && sigs[k] == s;
    ImplLayout(sigs);
    var i := if kind == CreateDef then k + 2 else n + 3 + k;
    assert plan[i] == PerSig(kind, s);
    FragmentContained(render, plan, i);
  }

  /** Every signature in the list has its create entry point declared in
      the header and defined in the implementation from the very same
      prototype: same name, return type and parameter. */
  lemma CreateDeclaredAndDefined(cfg: Config, s: string)
    requires s in cfg.signatures
    ensures Contains(HeaderText(cfg), DeclText(CreateProto(s, cfg.tapType(s))))
    ensures Contains(ImplText(cfg), DefinitionText(Delegation(CreateProto(s, cfg.tapType(s)))))
  {
    HeaderFragmentsPresent(Render(cfg), cfg.signatures, s, CreateDecl);
    ImplFragmentsPresent(Render(cfg), cfg.signatures, s, CreateDef);
  }

  /** The same for the info entry point get_gr_fir_<sig>_info. */
  lemma InfoDeclaredAndDefined(cfg: Config, s: string)
    requires s in cfg.signatures
    ensures Contains(HeaderText(cfg), DeclText(InfoProto(s)))
    ensures Contains(ImplText(cfg), DefinitionText(Delegation(InfoProto(s))))
  {
    HeaderFragmentsPresent(Render(cfg), cfg.signatures, s, InfoDecl);
    ImplFragmentsPresent(Render(cfg), cfg.signatures, s, InfoDef);
  }

  /** Every signature in the list has its forward declaration and its info
      record in the header. */
  lemma ClassAndRecordDeclared(cfg: Config, s: string)
    requires s in cfg.signatures
    ensures Contains(HeaderText(cfg), "class " + FilterClass(s) + ";\n")
    ensures Contains(HeaderText(cfg), StructText(InfoStructOf(s, cfg.tapType(s))))
  {
    HeaderFragmentsPresent(Render(cfg), cfg.signatures, s, ForwardDecl);
    HeaderFragmentsPresent(Render(cfg), cfg.signatures, s, InfoStruct);
  }
}
