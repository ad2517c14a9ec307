# gr_fir_util generator, modelled in Dafny

GNU Radio's `generate_gr_fir_util.py` writes two C++ files from a list of
FIR signature codes such as `fcf` or `scc`. It also uses a function that
gives each code's tap element type, and a copyright banner.

- **`gr_fir_util.h`** declares:
  - one opaque class `gr_fir_<sig>` per code;
  - one `gr_fir_<sig>_info` record per code;
  - the static members `create_gr_fir_<sig>` and `get_gr_fir_<sig>_info` of `struct gr_fir_util`.
- **`gr_fir_util.cc`** defines those members. Each definition is one call to the member of the same name on `gr_fir_sysconfig_singleton()`.

This project models the generator in five modules:

- `CppSyntax` (cpp_syntax.dfy) covers the small part of C++ that is written: prototypes, single-call definitions and the info record. Each entity renders to exactly the characters the generator writes for it.
- `FirUtilText` (fir_util_text.dfy) defines the inputs (`Config`) and the fragments of each artifact. It gives the order of the writes (`HeaderPlan` and `ImplPlan`) and the full text of both files (`HeaderText` and `ImplText`).
- `FirUtilProperties` (fir_util_properties.dfy) holds the lemmas about the plans and texts. They cover:
  - region order;
  - per-signature lockstep;
  - occurrence counts;
  - the placement of the copyright, include guard and includes;
  - declarations matching definitions.
- `TextStream` (text_stream.dfy) is the output file, a class whose text each write appends to.
- `GenerateFirUtil` (generate_gr_fir_util.dfy) holds the generator's procedures as methods over a `Stream`. Their loops carry invariants, and they are proved to leave exactly `HeaderText` and `ImplText` in their stream.

Most plan lemmas take the renderer as a parameter (`render: Fragment -> string`). They therefore hold for any text of the fragments. `Render(cfg)` is the generator's own renderer.

## Model

| member | source | states |
|---|---|---|
| CppSyntax.Delegation | gnuradio-core/src/lib/filter/generate_gr_fir_util.py:121-140 | a generated definition has the entry point's own prototype and a one-statement body calling the singleton member of the same name with the entry point's parameter; the call is returned exactly when the entry point returns a pointer (create) and evaluated for the void info gatherer |
| FirUtilText.CreateProto | gnuradio-core/src/lib/filter/generate_gr_fir_util.py:34-36 | the create entry point returns a pointer to a filter class and is named after that class (create_ followed by the class name); its parameter is named taps |
| FirUtilProperties.CreateNameInjective | gnuradio-core/src/lib/filter/generate_gr_fir_util.py:34-36 | two signatures whose create entry points have the same name are the same signature, whatever their tap types |
| FirUtilProperties.CreateAndInfoNamesDiffer | gnuradio-core/src/lib/filter/generate_gr_fir_util.py:34-40 | no create entry point has the name of an info gatherer, for any two signatures |
| FirUtilText.InfoProto | gnuradio-core/src/lib/filter/generate_gr_fir_util.py:38-40 | the info gatherer returns void, is named get_ followed by a record type, and takes a pointer to a vector of exactly that record type, named info |
| FirUtilProperties.InfoNameInjective | gnuradio-core/src/lib/filter/generate_gr_fir_util.py:38-40 | two signatures whose info gatherers have the same name, or whose info records have the same type name, are the same signature |
| FirUtilText.InfoStructOf | gnuradio-core/src/lib/filter/generate_gr_fir_util.py:25-32 | the info record is the element type of get_..._info's vector and has exactly two fields, the name and then a creator with the same return class and parameter as create_gr_fir_<sig> |
| FirUtilProperties.FragmentTemplates | gnuradio-core/src/lib/filter/generate_gr_fir_util.py:25-140 | each of the six per-signature fragments (forward declaration, info record, create and info declarations, create and info definitions) renders to the format string of the source with sig and tap_type(sig) substituted |
| FirUtilProperties.HeaderRegions | gnuradio-core/src/lib/filter/generate_gr_fir_util.py:45-116 | the header text is copyright, banner, forward declarations, structures heading, info records, struct opening, create declarations, info heading, info declarations, closing, in this order |
| FirUtilProperties.ImplRegions | gnuradio-core/src/lib/filter/generate_gr_fir_util.py:143-174 | the implementation text is copyright, includes and constructors heading, create definitions, info-gatherers heading, info definitions, in this order |
| FirUtilProperties.ArtifactsStartWithCopyright | gnuradio-core/src/lib/filter/generate_gr_fir_util.py:45-47 | both artifacts (written at lines 47 and 145) begin with the same copyright text |
| FirUtilProperties.HeaderGuarded | gnuradio-core/src/lib/filter/generate_gr_fir_util.py:47-115 | the header starts with copyright and banner, the banner opens the INCLUDED_GR_FIR_UTIL_H guard, and the header's last line closes it |
| FirUtilProperties.HeaderOpensGuard | gnuradio-core/src/lib/filter/generate_gr_fir_util.py:47-59 | the header starts with the copyright followed by the banner, and the banner holds the #ifndef/#define of INCLUDED_GR_FIR_UTIL_H |
| FirUtilProperties.ClosesGuard | gnuradio-core/src/lib/filter/generate_gr_fir_util.py:111-115 | for any renderer that renders the closing fragment as the source's closing text, the header plan's text ends with the #endif line of the guard |
| FirUtilProperties.HeaderClosesGuard | gnuradio-core/src/lib/filter/generate_gr_fir_util.py:111-115 | the header text ends with the #endif line of the guard |
| FirUtilProperties.PreambleIncludes | gnuradio-core/src/lib/filter/generate_gr_fir_util.py:146-161 | the implementation preamble includes gr_fir_util.h and gr_fir_sysconfig.h |
| FirUtilProperties.DefinitionsAfterPreamble | gnuradio-core/src/lib/filter/generate_gr_fir_util.py:143-172 | in any rendering, copyright and preamble are a prefix of the implementation that ends no later than any per-signature definition starts |
| FirUtilProperties.IncludesBeforeDefinitions | gnuradio-core/src/lib/filter/generate_gr_fir_util.py:145-164 | both includes occur in the text that precedes every create and info definition |
| FirUtilProperties.HeaderLayout | gnuradio-core/src/lib/filter/generate_gr_fir_util.py:45-116 | the header plan has 4n+6 writes; the fixed writes sit at fixed positions and the k-th write of each of the four loops is that loop's fragment of the k-th signature |
| FirUtilProperties.ImplLayout | gnuradio-core/src/lib/filter/generate_gr_fir_util.py:143-174 | the implementation plan has 2n+3 writes, the k-th create and k-th info definition belonging to the k-th signature |
| FirUtilProperties.HeaderAt | gnuradio-core/src/lib/filter/generate_gr_fir_util.py:79-109 | the position of the k-th signature's fragment of each header kind |
| FirUtilProperties.HeaderBandAt | gnuradio-core/src/lib/filter/generate_gr_fir_util.py:45-116 | each header position lies in the region given by its index |
| FirUtilProperties.HeaderRegionOrder | gnuradio-core/src/lib/filter/generate_gr_fir_util.py:45-116 | the header's regions never interleave: region rank never decreases along the plan |
| FirUtilProperties.ImplBandAt | gnuradio-core/src/lib/filter/generate_gr_fir_util.py:143-174 | each implementation position lies in the region given by its index |
| FirUtilProperties.ImplRegionOrder | gnuradio-core/src/lib/filter/generate_gr_fir_util.py:143-174 | the implementation's regions never interleave |
| FirUtilProperties.HeaderSigs | gnuradio-core/src/lib/filter/generate_gr_fir_util.py:79-109 | for each of its four kinds the header's fragments name exactly the signature list, in list order, and no fragment of another kind appears |
| FirUtilProperties.ImplSigs | gnuradio-core/src/lib/filter/generate_gr_fir_util.py:163-172 | the create and info definitions name exactly the signature list in list order, the same sequence as the header's create and info declarations |
| FirUtilProperties.HeaderOccurrences | gnuradio-core/src/lib/filter/generate_gr_fir_util.py:79-109 | each header fragment of a signature occurs as often as the signature occurs in the list |
| FirUtilProperties.ImplOccurrences | gnuradio-core/src/lib/filter/generate_gr_fir_util.py:163-172 | each implementation fragment of a signature occurs as often as the signature occurs in the list |
| FirUtilProperties.ExactlyOnce | gnuradio-core/src/lib/filter/generate_gr_fir_util.py:79-172 | with distinct codes each listed signature gets exactly one fragment of each of the six kinds |
| FirUtilProperties.NoResidue | gnuradio-core/src/lib/filter/generate_gr_fir_util.py:79-172 | a code not in the list gets no fragment in either artifact |
| FirUtilProperties.HeaderTextOrder | gnuradio-core/src/lib/filter/generate_gr_fir_util.py:45-116 | in the header text a fragment of an earlier region ends before any fragment of a later region starts |
| FirUtilProperties.ImplTextOrder | gnuradio-core/src/lib/filter/generate_gr_fir_util.py:143-174 | the same for the implementation text |
| FirUtilProperties.CreateDeclsBeforeInfoDecls | gnuradio-core/src/lib/filter/generate_gr_fir_util.py:94-109 | every create declaration ends before any info declaration starts |
| FirUtilProperties.CreateDefsBeforeInfoDefs | gnuradio-core/src/lib/filter/generate_gr_fir_util.py:163-172 | every create definition ends before the info-gatherers heading, which ends before every info definition |
| FirUtilProperties.HeaderFragmentsPresent | gnuradio-core/src/lib/filter/generate_gr_fir_util.py:79-109 | every listed signature's four header fragments occur in the header text |
| FirUtilProperties.ImplFragmentsPresent | gnuradio-core/src/lib/filter/generate_gr_fir_util.py:163-172 | every listed signature's two definitions occur in the implementation text |
| FirUtilProperties.CreateDeclaredAndDefined | gnuradio-core/src/lib/filter/generate_gr_fir_util.py:121-129 | create_gr_fir_<sig> is declared in the header and defined in the implementation from the same prototype (name, return type, parameter) |
| FirUtilProperties.InfoDeclaredAndDefined | gnuradio-core/src/lib/filter/generate_gr_fir_util.py:132-140 | get_gr_fir_<sig>_info is declared in the header and defined in the implementation from the same prototype |
| FirUtilProperties.ClassAndRecordDeclared | gnuradio-core/src/lib/filter/generate_gr_fir_util.py:79-85 | every listed signature has its forward declaration and its info record in the header |
| TextStream.Stream.constructor | gnuradio-core/src/lib/filter/generate_gr_fir_util.py:46 | a file opened for writing starts empty |
| TextStream.Stream.Write | gnuradio-core/src/lib/filter/generate_gr_fir_util.py:47 | a write appends its text and changes nothing else |
| GenerateFirUtil.MakeInfoStruct | gnuradio-core/src/lib/filter/generate_gr_fir_util.py:25-32 | appends exactly the info record fragment of sig |
| GenerateFirUtil.MakeCreate | gnuradio-core/src/lib/filter/generate_gr_fir_util.py:34-36 | appends exactly the create declaration of sig |
| GenerateFirUtil.MakeInfo | gnuradio-core/src/lib/filter/generate_gr_fir_util.py:38-40 | appends exactly the declaration of InfoProto(sig), the info gatherer of sig |
| GenerateFirUtil.MakeConstructorCc | gnuradio-core/src/lib/filter/generate_gr_fir_util.py:121-129 | appends exactly the create definition of sig |
| GenerateFirUtil.MakeInfoCc | gnuradio-core/src/lib/filter/generate_gr_fir_util.py:132-140 | appends exactly the delegating definition of InfoProto(sig), the info gatherer of sig |
| GenerateFirUtil.WriteFragment | gnuradio-core/src/lib/filter/generate_gr_fir_util.py:79-109 | one turn of a per-signature loop appends exactly the fragment of its kind for one signature, by calling the matching make_* procedure |
| GenerateFirUtil.WriteEach | gnuradio-core/src/lib/filter/generate_gr_fir_util.py:79-109 | one `for sig in fir_signatures` loop appends the region of its kind: one fragment per signature, in list order |
| GenerateFirUtil.MakeFirUtilH | gnuradio-core/src/lib/filter/generate_gr_fir_util.py:45-116 | the header file ends up holding exactly HeaderText(cfg) |
| GenerateFirUtil.MakeFirUtilCc | gnuradio-core/src/lib/filter/generate_gr_fir_util.py:143-174 | the implementation file ends up holding exactly ImplText(cfg) |
| GenerateFirUtil.Generate | gnuradio-core/src/lib/filter/generate_gr_fir_util.py:179-181 | a run yields both artifacts: the header holds exactly HeaderText(cfg) and the implementation exactly ImplText(cfg), each a function of the inputs alone, so two runs on the same inputs give identical output |

## Left out

- File handling is not modelled: `open_and_log_name`, the logging of the file name, the names `gr_fir_util.h` and `gr_fir_util.cc`, the `'w'` mode and `out.close()`. Opening a file is a fresh empty `Stream`, and closing it returns the stream's text.
- The contents of `generate_utils` are not part of this model. `fir_signatures`, `tap_type` and `copyright` are the fields of `Config`, and `tap_type` is a total function. No error is modelled for an unknown code, because none appears in the generator.
- The `__main__` entry point is left out; it is command-line plumbing.
- The C++ meaning of the generated text is left out: what `gr_fir_sysconfig_singleton()` returns at run time and the filters themselves. The model is about the characters written.
- `gr-error-correcting-codes/src/lib/libecc/decoder_viterbi.cc` is not part of this model.
- Python's `%` formatting is modelled as string concatenation.
- GenerateFirUtil.WriteEach: the source writes six separate `for sig in fir_signatures` loops, at lines 79, 84, 94, 108, 163 and 171. The model has one loop method, parameterised by the fragment kind, and each artifact writer calls it once per loop.
- GenerateFirUtil.Generate: it returns the two texts as the two fields of `Artifacts` instead of leaving them in two files. The header is written before the implementation, as in the source, but that order is not part of the contract.
- FirUtilProperties.ExactlyOnce: it is stated for lists without repeated codes. For any list, HeaderOccurrences and ImplOccurrences give the count, which is the code's multiplicity in the list.
