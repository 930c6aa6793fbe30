/** The notebook-side helpers of `src/dataUtils.py`: which PDF pages are
    rasterised and how many images they become, the page-number sets used
    to pick a pipeline per page, and the older seven-entry operation
    registry with its left-to-right pipeline runner. Rasterising, file
    I/O and the OpenCV kernels are outside the model. */
module DataUtils {
  import opened Wrappers
  import opened Values

  // ------------------------------------------------------------------
  // page sets
  // ------------------------------------------------------------------

  /** One item of a page specification: a `(first, last)` tuple or a
      single page number. */
  datatype PageSpec = Span(first: int, last: int) | Page(number: int)

  predicate Covers(item: PageSpec, p: int) {
    match item
    case Span(a, b) => a <= p <= b
    case Page(n) => p == n
  }

  /** `range(a, b + 1)`. */
  function Interval(a: int, b: int): (r: seq<int>)
    ensures forall p :: p in r <==> a <= p <= b
  {
    if a > b then []
    else
      var r := seq(b - a + 1, k requires 0 <= k <= b - a => a + k);
      assert forall k :: 0 <= k < |r| ==> r[k] == a + k;
      assert forall p :: a <= p <= b ==> p in r by {
        forall p | a <= p <= b ensures p in r {
          assert r[p - a] == p;
        }
      }
      r
  }

  /** The pages one item adds: `range(a, b + 1)` or the number itself. */
  function ItemPages(item: PageSpec): (r: set<int>)
    ensures forall p :: p in r <==> Covers(item, p)
  {
    match item
    case Span(a, b) => set p | p in Interval(a, b)
    case Page(n) => {n}
  }

  /** `expand_pages`: the union of the pages of every item. */
  function ExpandPages(spec: seq<PageSpec>): (r: set<int>)
    ensures forall p :: p in r <==> exists k :: 0 <= k < |spec| && Covers(spec[k], p)
  {
    if |spec| == 0 then {}
    else
      var front := spec[..|spec| - 1];
      var r := ExpandPages(front) + ItemPages(spec[|spec| - 1]);
      assert forall k :: 0 <= k < |front| ==> front[k] == spec[k];
      r
  }

  /** A reversed tuple contributes nothing. */
  lemma EmptySpan(a: int, b: int)
    requires a > b
    ensures ExpandPages([Span(a, b)]) == {}
  {
    assert forall p :: !Covers(Span(a, b), p);
  }

  /** The order of the items does not matter: the result is a set. */
  lemma ExpandPagesSwap(spec: seq<PageSpec>, k: nat)
    requires k + 1 < |spec|
    ensures ExpandPages(spec[k := spec[k + 1]][k + 1 := spec[k]]) == ExpandPages(spec)
  {
    var t := spec[k := spec[k + 1]][k + 1 := spec[k]];
    forall p ensures p in ExpandPages(t) <==> p in ExpandPages(spec) {
      if p in ExpandPages(spec) {
        var m :| 0 <= m < |spec| && Covers(spec[m], p);
        var m' := if m == k then k + 1 else if m == k + 1 then k else m;
        assert t[m'] == spec[m];
      }
      if p in ExpandPages(t) {
        var m :| 0 <= m < |t| && Covers(t[m], p);
        var m' := if m == k then k + 1 else if m == k + 1 then k else m;
        assert spec[m'] == t[m];
      }
    }
  }

  // ------------------------------------------------------------------
  // page selection in pdf_to_images
  // ------------------------------------------------------------------

  /** `[p - 1 for p in page_list if 1 <= p <= total_pages]`. */
  function ListSelection(total: nat, pages: seq<int>): (r: seq<nat>)
    ensures |r| <= |pages|
    ensures forall k :: 0 <= k < |r| ==> r[k] < total
  {
    if |pages| == 0 then []
    else
      var rest := ListSelection(total, pages[..|pages| - 1]);
      var p := pages[|pages| - 1];
      if 1 <= p <= total then rest + [p - 1] else rest
  }

  /** The comprehension filters entry by entry: selecting from two lists
      one after the other is selecting from their concatenation, so the
      selection keeps the order of the list. */
  lemma {:induction false} ListSelectionAppend(total: nat, a: seq<int>, b: seq<int>)
    ensures ListSelection(total, a + b) == ListSelection(total, a) + ListSelection(total, b)
  {
    if |b| > 0 {
      var front := b[..|b| - 1];
      assert (a + b)[..|a + b| - 1] == a + front;
      assert (a + b)[|a + b| - 1] == b[|b| - 1];
      ListSelectionAppend(total, a, front);
    } else {
      assert a + b == a;
    }
  }

  /** How often `v` occurs in `xs`. */
  function Count(xs: seq<int>, v: int): nat {
    if |xs| == 0 then 0 else Count(xs[..|xs| - 1], v) + (if xs[|xs| - 1] == v then 1 else 0)
  }

  lemma {:induction false} CountIsMultiplicity(xs: seq<int>, v: int)
    ensures Count(xs, v) == multiset(xs)[v]
  {
    if |xs| > 0 {
      var front := xs[..|xs| - 1];
      CountIsMultiplicity(front, v);
      assert xs == front + [xs[|xs| - 1]];
      assert multiset(xs) == multiset(front) + multiset{xs[|xs| - 1]};
    }
  }

  /** Page `x` (0-based) is selected as often as the list names page
      `x + 1`, and nothing else is selected: out-of-range entries are
      dropped. */
  lemma {:induction false} ListSelectionCounts(total: nat, pages: seq<int>, x: nat)
    ensures Count(ListSelection(total, pages), x) == if x < total then Count(pages, x + 1) else 0
  {
    if |pages| > 0 {
      var front := pages[..|pages| - 1];
      var p := pages[|pages| - 1];
      ListSelectionCounts(total, front, x);
      var rest := ListSelection(total, front);
      if 1 <= p <= total {
        assert (rest + [p - 1])[..|rest|] == rest;
      }
    }
  }

  /** The same, as multiplicities: the selection is the in-range part of
      the list, shifted to 0-based numbers, up to order. */
  lemma ListSelectionMultiplicity(total: nat, pages: seq<int>, x: nat)
    ensures multiset(ListSelection(total, pages))[x] == if x < total then multiset(pages)[x + 1] else 0
  {
    ListSelectionCounts(total, pages, x);
    CountIsMultiplicity(ListSelection(total, pages), x);
    CountIsMultiplicity(pages, x + 1);
  }

  /** With every listed page in range, the selection is the list itself,
      shifted to 0-based numbers, order and repetitions included. */
  lemma {:induction false} ListSelectionKeepsOrder(total: nat, pages: seq<int>)
    requires forall k :: 0 <= k < |pages| ==> 1 <= pages[k] <= total
    ensures |ListSelection(total, pages)| == |pages|
    ensures forall k :: 0 <= k < |pages| ==> ListSelection(total, pages)[k] == pages[k] - 1
  {
    if |pages| > 0 {
      var front := pages[..|pages| - 1];
      ListSelectionKeepsOrder(total, front);
    }
  }

  /** `range(max(1, start) - 1, min(total_pages, end))`. */
  function RangeSelection(total: nat, start: int, end: int): (r: seq<nat>)
    ensures forall x: int :: x in r <==> 0 <= x < total && start <= x + 1 <= end
    ensures forall k :: 0 <= k && k + 1 < |r| ==> r[k + 1] == r[k] + 1
  {
    var lo := Max(1, start) - 1;
    var hi := Min(total, end);
    if lo >= hi then []
    else
      var r := seq(hi - lo, k requires 0 <= k < hi - lo => (lo + k) as nat);
      assert forall k :: 0 <= k < |r| ==> r[k] == lo + k;
      assert forall x: int :: x in r <==> lo <= x < hi by {
        forall x: int | lo <= x < hi ensures x in r {
          assert r[x - lo] == x;
        }
      }
      r
  }

  /** All pages, in document order. */
  function AllPages(total: nat): (r: seq<nat>)
    ensures |r| == total
    ensures forall k :: 0 <= k < total ==> r[k] == k
  {
    seq(total, k requires 0 <= k < total => k as nat)
  }

  /** The 0-based pages `pdf_to_images` renders: an explicit list wins over
      a range, and with neither every page is used. */
  function SelectPages(total: nat, pageList: Option<seq<int>>, pageRange: Option<(int, int)>): (r: seq<nat>)
    ensures forall k :: 0 <= k < |r| ==> r[k] < total
    ensures pageList.Some? ==> r == ListSelection(total, pageList.value)
    ensures pageList.None? && pageRange.Some? ==> r == RangeSelection(total, pageRange.value.0, pageRange.value.1)
    ensures pageList.None? && pageRange.None? ==> r == AllPages(total)
  {
    if pageList.Some? then ListSelection(total, pageList.value)
    else if pageRange.Some? then
      var r := RangeSelection(total, pageRange.value.0, pageRange.value.1);
      assert forall k :: 0 <= k < |r| ==> r[k] in r;
      r
    else AllPages(total)
  }

  // ------------------------------------------------------------------
  // spreads and the image counter
  // ------------------------------------------------------------------

  /** Pixel size of a rendered page. */
  datatype Size = Size(width: nat, height: nat)

  /** The part of a page written to one file: columns `left..right`,
      rows `top..bottom`. */
  datatype Crop = Crop(left: nat, top: nat, right: nat, bottom: nat)

  /** `page<number>.png`, cut from page `page` of the document. */
  datatype Saved = Saved(number: nat, page: nat, crop: Crop)

  /** A two-page spread: `width > height * 1.19`. */
  predicate IsSpread(s: Size) {
    s.width as real > s.height as real * 1.19
  }

  function ImagesOf(s: Size): nat {
    if IsSpread(s) then 2 else 1
  }

  predicate WithinPage(c: Crop, s: Size) {
    c.left <= c.right <= s.width && c.top <= c.bottom <= s.height
  }

  /** The files written for one page when the counter stands at `number`:
      a spread becomes its left and right halves split at `width // 2`,
      any other page is saved whole. */
  function PageFiles(page: nat, s: Size, number: nat): (r: seq<Saved>)
    ensures |r| == ImagesOf(s)
    ensures forall k :: 0 <= k < |r| ==> r[k].number == number + k && r[k].page == page && WithinPage(r[k].crop, s)
    ensures |r| == 2 ==> r[0].crop.right == r[1].crop.left && r[0].crop.left == 0 && r[1].crop.right == s.width
    ensures |r| == 1 ==> r[0].crop == Crop(0, 0, s.width, s.height)
  {
    if IsSpread(s) then
      [Saved(number, page, Crop(0, 0, s.width / 2, s.height)),
       Saved(number + 1, page, Crop(s.width / 2, 0, s.width, s.height))]
    else [Saved(number, page, Crop(0, 0, s.width, s.height))]
  }

  /** How many images the pages become. */
  function ImageCount(sizes: seq<Size>, pages: seq<nat>): nat
    requires forall k :: 0 <= k < |pages| ==> pages[k] < |sizes|
  {
    if |pages| == 0 then 0
    else ImageCount(sizes, pages[..|pages| - 1]) + ImagesOf(sizes[pages[|pages| - 1]])
  }

  /** Each page gives one or two images. */
  lemma {:induction false} ImageCountBounds(sizes: seq<Size>, pages: seq<nat>)
    requires forall k :: 0 <= k < |pages| ==> pages[k] < |sizes|
    ensures |pages| <= ImageCount(sizes, pages) <= 2 * |pages|
    ensures ImageCount(sizes, pages) == |pages| <==> forall k :: 0 <= k < |pages| ==> !IsSpread(sizes[pages[k]])
  {
    if |pages| > 0 {
      ImageCountBounds(sizes, pages[..|pages| - 1]);
    }
  }

  /** The files the pages become, one page after the other, numbered from
      `number` on. */
  function AllFiles(sizes: seq<Size>, pages: seq<nat>, number: nat): (r: seq<Saved>)
    requires forall k :: 0 <= k < |pages| ==> pages[k] < |sizes|
    ensures |r| == ImageCount(sizes, pages)
    ensures forall k :: 0 <= k < |r| ==> r[k].number == number + k
    ensures forall k :: 0 <= k < |r| ==> r[k].page in pages && WithinPage(r[k].crop, sizes[r[k].page])
  {
    if |pages| == 0 then []
    else
      var front := pages[..|pages| - 1];
      var last := pages[|pages| - 1];
      var a := AllFiles(sizes, front, number);
      var b := PageFiles(last, sizes[last], number + ImageCount(sizes, front));
      assert forall k :: 0 <= k < |a| ==> (a + b)[k] == a[k] && a[k].page in pages;
      assert forall k :: |a| <= k < |a| + |b| ==> (a + b)[k] == b[k - |a|];
      a + b
  }

  /** One more page appends its files, numbered on from the count so far. */
  lemma AllFilesStep(sizes: seq<Size>, pages: seq<nat>, i: nat)
    requires i < |pages|
    requires forall k :: 0 <= k < |pages| ==> pages[k] < |sizes|
    ensures ImageCount(sizes, pages[..i + 1]) == ImageCount(sizes, pages[..i]) + ImagesOf(sizes[pages[i]])
    ensures AllFiles(sizes, pages[..i + 1], 1) ==
      AllFiles(sizes, pages[..i], 1) + PageFiles(pages[i], sizes[pages[i]], 1 + ImageCount(sizes, pages[..i]))
  {
    assert pages[..i + 1][..i] == pages[..i];
  }

  /** The page loop of `pdf_to_images` over a document whose pages render
      at `sizes`: the files it writes, numbered from 1 without gaps, and
      the image count reported at the end, `image_counter - 1`. */
  method PdfToImages(sizes: seq<Size>, pageList: Option<seq<int>>, pageRange: Option<(int, int)>)
    returns (saved: seq<Saved>, imageCount: nat)
    ensures imageCount == |saved|
    ensures imageCount == ImageCount(sizes, SelectPages(|sizes|, pageList, pageRange))
    ensures saved == AllFiles(sizes, SelectPages(|sizes|, pageList, pageRange), 1)
    ensures forall k :: 0 <= k < |saved| ==> saved[k].number == k + 1
    ensures forall k :: 0 <= k < |saved| ==>
      saved[k].page in SelectPages(|sizes|, pageList, pageRange) && WithinPage(saved[k].crop, sizes[saved[k].page])
  {
    var pages := SelectPages(|sizes|, pageList, pageRange);
    var counter := 1;
    saved := [];
    var i := 0;
    while i < |pages|
      invariant 0 <= i <= |pages|
      invariant counter == |saved| + 1
      invariant saved == AllFiles(sizes, pages[..i], 1)
    {
      var files := PageFiles(pages[i], sizes[pages[i]], counter);
      AllFilesStep(sizes, pages, i);
      saved := saved + files;
      counter := counter + |files|;
      i := i + 1;
    }
    assert pages[..i] == pages;
    imageCount := counter - 1;
  }

  // ------------------------------------------------------------------
  // the older registry and pipeline runner
  // ------------------------------------------------------------------

  /** The seven keys of this file's own `OP_REGISTRY`. */
  datatype LegacyOp = Grayscale | Deskew | Normalize | Denoise | Contrast | Binarize | Morph

  function LegacyName(op: LegacyOp): string {
    match op
    case Grayscale => "grayscale"
    case Deskew => "deskew"
    case Normalize => "normalize"
    case Denoise => "denoise"
    case Contrast => "contrast"
    case Binarize => "binarize"
    case Morph => "morph"
  }

  function LegacyLookup(name: string): (r: Option<LegacyOp>)
    ensures r.Some? ==> LegacyName(r.value) == name
    ensures r.None? ==> forall op: LegacyOp :: LegacyName(op) != name
  {
    if name == "grayscale" then Some(Grayscale)
    else if name == "deskew" then Some(Deskew)
    else if name == "normalize" then Some(Normalize)
    else if name == "denoise" then Some(Denoise)
    else if name == "contrast" then Some(Contrast)
    else if name == "binarize" then Some(Binarize)
    else if name == "morph" then Some(Morph)
    else None
  }

  /** A name of this registry, as `op_name in OP_REGISTRY` finds it. */
  predicate LegacyRegistered(opName: Value) {
    opName.Str? && LegacyLookup(opName.s).Some?
  }

  /** Why a legacy pipeline stopped. */
  datatype LegacyError =
    | MissingOp                 // `step["op"]` raised KeyError
    | Unhashable(op: Value)     // `op_name not in OP_REGISTRY` raised TypeError
    | UnknownOperation(op: Value) // ValueError "Unknown operation: ..."
    | NotAMapping(params: Value)  // `func(image, **params)` on a non-dict
    | Raised(message: string)     // the function itself raised

  /** The registered functions, called with the image and keyword
      arguments; no keywords stands for `func(image)`. */
  type Kernel<!I> = (LegacyOp, I, Params) -> Result<I, string>

  /** `apply_operation(image, op_name, params)`: unknown names raise
      `ValueError`; falsy params call the function with the image alone. */
  function ApplyOperation<I>(kernel: Kernel<I>, image: I, opName: Value, params: Value): (r: Result<I, LegacyError>)
    ensures !Hashable(opName) ==> r == Failure(Unhashable(opName))
    ensures Hashable(opName) && !LegacyRegistered(opName) ==> r == Failure(UnknownOperation(opName))
    ensures LegacyRegistered(opName) && !Truthy(params) ==>
      r == Lift(kernel(LegacyLookup(opName.s).value, image, map[]))
    ensures LegacyRegistered(opName) && Truthy(params) && !params.Dict? ==> r == Failure(NotAMapping(params))
    ensures LegacyRegistered(opName) && Truthy(params) && params.Dict? ==>
      r == Lift(kernel(LegacyLookup(opName.s).value, image, params.fields))
  {
    if !Hashable(opName) then Failure(Unhashable(opName))
    else if !opName.Str? || LegacyLookup(opName.s).None? then Failure(UnknownOperation(opName))
    else
      var op := LegacyLookup(opName.s).value;
      if !Truthy(params) then Lift(kernel(op, image, map[]))
      else if !params.Dict? then Failure(NotAMapping(params))
      else Lift(kernel(op, image, params.fields))
  }

  function Lift<I>(r: Result<I, string>): Result<I, LegacyError> {
    match r
    case Success(v) => Success(v)
    case Failure(e) => Failure(Raised(e))
  }

  /** Every falsy `params` (None, `{}`, `[]`, `0`, `""`, False) calls the
      function with the image alone, and a dict, empty or not, hands the
      function exactly its entries. */
  lemma FalsyParamsAlike<I>(kernel: Kernel<I>, image: I, opName: Value, p: Value, q: Value)
    requires !Truthy(p) && !Truthy(q)
    ensures ApplyOperation(kernel, image, opName, p) == ApplyOperation(kernel, image, opName, q)
  {
  }

  lemma DictParamsPassed<I>(kernel: Kernel<I>, image: I, opName: Value, params: Value)
    requires LegacyRegistered(opName) && params.Dict?
    ensures ApplyOperation(kernel, image, opName, params) ==
      Lift(kernel(LegacyLookup(opName.s).value, image, params.fields))
  {
    if !Truthy(params) {
      assert params.fields == map[] by {
        assert |params.fields| == 0;
      }
    }
  }

  /** A step that raises whatever image it is given: no `op` key, a name
      outside the registry, or truthy params that are not a dict. */
  predicate Refused(step: map<string, Value>) {
    "op" !in step || !LegacyRegistered(step["op"]) ||
    ("params" in step && Truthy(step["params"]) && !step["params"].Dict?)
  }

  /** One step: `step["op"]`, `step.get("params", {})`, then `apply_operation`. */
  function ApplyStep<I>(kernel: Kernel<I>, image: I, step: map<string, Value>): (r: Result<I, LegacyError>)
    ensures "op" !in step ==> r == Failure(MissingOp)
    ensures Refused(step) <==> r.Failure? && !r.error.Raised?
    ensures "op" in step && !Hashable(step["op"]) ==> r == Failure(Unhashable(step["op"]))
    ensures "op" in step && Hashable(step["op"]) && !LegacyRegistered(step["op"]) ==>
      r == Failure(UnknownOperation(step["op"]))
    ensures "op" in step && LegacyRegistered(step["op"]) && "params" !in step ==>
      r == Lift(kernel(LegacyLookup(step["op"].s).value, image, map[]))
    ensures "op" in step && LegacyRegistered(step["op"]) && "params" in step && step["params"].Dict? ==>
      r == Lift(kernel(LegacyLookup(step["op"].s).value, image, step["params"].fields))
  {
    if "op" !in step then Failure(MissingOp)
    else
      var params := Get(step, "params", Dict(map[]));
      assert LegacyRegistered(step["op"]) && params.Dict? ==>
        ApplyOperation(kernel, image, step["op"], params) ==
        Lift(kernel(LegacyLookup(step["op"].s).value, image, params.fields)) by {
        if LegacyRegistered(step["op"]) && params.Dict? {
          DictParamsPassed(kernel, image, step["op"], params);
        }
      }
      ApplyOperation(kernel, image, step["op"], params)
  }

  /** `run_pipeline(image, pipeline)`: each step gets the previous step's
      result, and the first raise ends the run. */
  function RunPipeline<I>(kernel: Kernel<I>, image: I, steps: seq<map<string, Value>>): (r: Result<I, LegacyError>)
    ensures |steps| == 0 ==> r == Success(image)
    ensures (exists k :: 0 <= k < |steps| && Refused(steps[k])) ==> r.Failure?
    ensures r.Failure? && !r.error.Raised? ==> exists k :: 0 <= k < |steps| && Refused(steps[k])
  {
    if |steps| == 0 then Success(image)
    else
      assert forall k :: 1 <= k < |steps| ==> steps[1..][k - 1] == steps[k];
      match ApplyStep(kernel, image, steps[0])
      case Failure(e) => Failure(e)
      case Success(next) => RunPipeline(kernel, next, steps[1..])
  }

  /** Running two pipelines one after the other is running their
      concatenation. */
  lemma {:induction false} RunPipelineAppend<I>(kernel: Kernel<I>, image: I, a: seq<map<string, Value>>, b: seq<map<string, Value>>)
    ensures RunPipeline(kernel, image, a + b) ==
      match RunPipeline(kernel, image, a)
      case Failure(e) => Failure(e)
      case Success(mid) => RunPipeline(kernel, mid, b)
  {
    if |a| > 0 {
      assert (a + b)[0] == a[0];
      assert (a + b)[1..] == a[1..] + b;
      match ApplyStep(kernel, image, a[0])
      case Failure(e) =>
      case Success(next) =>
        RunPipelineAppend(kernel, next, a[1..], b);
    } else {
      assert a + b == b;
    }
  }

  /** A step naming an operation outside the seven stops the run with
      `ValueError` once it is reached. */
  lemma UnknownStepStops<I>(kernel: Kernel<I>, image: I, a: seq<map<string, Value>>, step: map<string, Value>, b: seq<map<string, Value>>)
    requires RunPipeline(kernel, image, a).Success?
    requires "op" in step && step["op"].Str? && LegacyLookup(step["op"].s).None?
    ensures RunPipeline(kernel, image, a + [step] + b) == Failure(UnknownOperation(step["op"]))
  {
    RunPipelineAppend(kernel, image, a, [step] + b);
    assert a + [step] + b == a + ([step] + b);
    var mid := RunPipeline(kernel, image, a).value;
    assert ([step] + b)[0] == step;
  }

  // ------------------------------------------------------------------
  // per-page pipelines in process_image_folder
  // ------------------------------------------------------------------

  /** The last rule, before position `n`, whose pages include `p`. */
  function LastRule<P>(rules: seq<(PageSpec, P)>, n: nat, p: int): (r: Option<nat>)
    requires n <= |rules|
    ensures r.Some? ==> r.value < n && Covers(rules[r.value].0, p)
    ensures r.Some? ==> forall k :: r.value < k < n ==> !Covers(rules[k].0, p)
    ensures r.None? ==> forall k :: 0 <= k < n ==> !Covers(rules[k].0, p)
  {
    if n == 0 then None
    else if Covers(rules[n - 1].0, p) then Some(n - 1)
    else LastRule(rules, n - 1, p)
  }

  /** `page_map`: the rules of `page_pipelines` in insertion order, each
      assigning its pipeline to every page of its specification. */
  function PageMap<P>(rules: seq<(PageSpec, P)>): (r: map<int, P>)
    ensures forall p :: p in r <==> exists k :: 0 <= k < |rules| && Covers(rules[k].0, p)
  {
    if |rules| == 0 then map[]
    else
      var (spec, pipeline) := rules[|rules| - 1];
      var front := rules[..|rules| - 1];
      assert forall k :: 0 <= k < |front| ==> front[k] == rules[k];
      PageMap(front) + map p | p in ItemPages(spec) :: pipeline
  }

  /** A page is mapped exactly when some rule covers it, and then to the
      pipeline of the last such rule: later rules overwrite earlier ones. */
  lemma {:induction false} PageMapLastWins<P>(rules: seq<(PageSpec, P)>, p: int)
    ensures p in PageMap(rules) <==> LastRule(rules, |rules|, p).Some?
    ensures p in PageMap(rules) ==> PageMap(rules)[p] == rules[LastRule(rules, |rules|, p).value].1
  {
    if |rules| > 0 {
      var n := |rules|;
      var front := rules[..n - 1];
      PageMapLastWins(front, p);
      var (spec, pipeline) := rules[n - 1];
      assert PageMap(rules) == PageMap(front) + map q | q in ItemPages(spec) :: pipeline;
      assert LastRule(front, n - 1, p) == LastRule(rules, n - 1, p) by {
        LastRulePrefix(rules, n - 1, n - 1, p);
      }
    }
  }

  lemma {:induction false} LastRulePrefix<P>(rules: seq<(PageSpec, P)>, m: nat, n: nat, p: int)
    requires n <= m <= |rules|
    ensures LastRule(rules[..m], n, p) == LastRule(rules, n, p)
  {
    if n > 0 {
      assert rules[..m][n - 1] == rules[n - 1];
      LastRulePrefix(rules, m, n - 1, p);
    }
  }

  /** `page_map.get(idx, default_pipeline)` for the file at 1-based
      position `idx` of the sorted listing; a skipped unreadable file still
      uses up its number. */
  function PipelineFor<P>(rules: seq<(PageSpec, P)>, idx: int, default: P): (r: P)
    ensures LastRule(rules, |rules|, idx).None? ==> r == default
    ensures LastRule(rules, |rules|, idx).Some? ==> r == rules[LastRule(rules, |rules|, idx).value].1
  {
    PageMapLastWins(rules, idx);
    var m := PageMap(rules);
    if idx in m then m[idx] else default
  }
}
