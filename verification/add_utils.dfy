/** Shared helpers of the `add` command: the table of optional packages and
    the patch that registers a context provider in the root layout file
    (`addContextProviderToLayout`). The file read and the file write around
    the patch are left to the caller: the patch is a function from the old
    layout text to the new one. */
module AddUtils {
  import opened JsStrings

  /** The optional packages a project can hold. */
  datatype AvailablePackage = Drizzle | Trpc | NextAuth | ShadcnUi

  /** The identifier under which a package is stored in the project config. */
  function PackageValue(p: AvailablePackage): string
  {
    match p
    case Drizzle => "drizzle"
    case Trpc => "trpc"
    case NextAuth => "next-auth"
    case ShadcnUi => "shadcn-ui"
  }

  /** One choice of the package menu: a display name and a package. */
  datatype PackageChoice = PackageChoice(name: string, value: AvailablePackage)

  const Packages: seq<PackageChoice> := [
    PackageChoice("Drizzle", Drizzle),
    PackageChoice("TRPC", Trpc),
    PackageChoice("Auth.js (NextAuth)", NextAuth),
    PackageChoice("Shadcn UI", ShadcnUi)
  ]

  /** The menu lists the four packages, in this order, under pairwise
      distinct identifiers. */
  lemma PackagesTable()
    ensures |Packages| == 4
    ensures [Packages[0].value, Packages[1].value, Packages[2].value, Packages[3].value]
            == [Drizzle, Trpc, NextAuth, ShadcnUi]
    ensures [PackageValue(Packages[0].value), PackageValue(Packages[1].value),
             PackageValue(Packages[2].value), PackageValue(Packages[3].value)]
            == ["drizzle", "trpc", "next-auth", "shadcn-ui"]
    ensures forall i, j :: 0 <= i < j < |Packages| ==>
              PackageValue(Packages[i].value) != PackageValue(Packages[j].value)
  {
  }

  /** The directory every generated or patched path is rooted in. */
  function RootPath(hasSrc: bool): string
  {
    if hasSrc then "src/" else ""
  }

  /** A path under the project root starts with `src/` exactly when the
      project has a source directory, for any relative path that does not
      itself start with `s`. */
  lemma RootedPath(hasSrc: bool, rel: string)
    requires |rel| > 0 && rel[0] != 's'
    ensures ("src/" <= RootPath(hasSrc) + rel) == hasSrc
  {
    if !hasSrc {
      assert (RootPath(hasSrc) + rel)[0] != "src/"[0];
    }
  }

  /** The root layout file of the application. */
  function LayoutPath(hasSrc: bool): (path: string)
    ensures path == (if hasSrc then "src/app/layout.tsx" else "app/layout.tsx")
  {
    RootPath(hasSrc) + "app/layout.tsx"
  }

  /** The components the layout patch can register. */
  datatype Provider = NextAuthProvider | TrpcProvider | ShadcnToast

  function ProviderName(p: Provider): string
  {
    match p
    case NextAuthProvider => "NextAuthProvider"
    case TrpcProvider => "TrpcProvider"
    case ShadcnToast => "ShadcnToast"
  }

  const ImportKeyword := "import"

  /** The rendering slot of the layout. */
  const ChildrenSlot := "{children}"

  /** The import line that brings the provider's component into scope. */
  function ImportStatement(p: Provider): string
  {
    match p
    case NextAuthProvider => "import NextAuthProvider from " + "\"@/lib/auth/Provider\";"
    case TrpcProvider => "import TrpcProvider from " + "\"@/lib/trpc/Provider\";"
    case ShadcnToast => "import { Toaster } from " + "\"@/components/ui/toaster\";"
  }

  /** Each provider has its own import line. */
  lemma ImportStatementsDistinct(p: Provider, q: Provider)
    requires p != q
    ensures ImportStatement(p) != ImportStatement(q)
  {
  }

  /** What the first rendering slot is rewritten to: the toaster follows the
      slot, the other providers wrap it. */
  function ChildrenReplacement(p: Provider): (w: string)
    ensures |w| > |ChildrenSlot|
    ensures exists i :: OccursAt(w, ChildrenSlot, i)
  {
    if p == ShadcnToast then
      var w := "{children}\n<Toaster />\n";
      assert OccursAt(w, ChildrenSlot, 0);
      w
    else
      var name := ProviderName(p);
      var w := "\n<" + name + ">{children}</" + name + ">\n";
      assert w[|name| + 3..|name| + 13] == ChildrenSlot;
      assert OccursAt(w, ChildrenSlot, |name| + 3);
      w
  }

  /** Where the newline search starts: at the last `import`, or at 0 when the
      file has none (`indexOf` clamps the -1). */
  function NewlineSearchStart(content: string): nat
  {
    ClampPosition(content, LastIndexOf(content, ImportKeyword))
  }

  lemma NewlineOccursAt(s: string, i: int)
    ensures OccursAt(s, "\n", i) <==> 0 <= i < |s| && s[i] == '\n'
  {
    if 0 <= i < |s| {
      assert s[i..i + 1] == [s[i]];
    }
  }

  /** The index just past the newline that ends the line of the last `import`;
      0 when no newline follows it, so that the line goes in first. */
  function ImportInsertionPoint(content: string): (k: nat)
    ensures k <= |content|
    ensures k == 0 <==>
              forall i :: NewlineSearchStart(content) <= i < |content| ==> content[i] != '\n'
    ensures k > 0 ==>
              NewlineSearchStart(content) < k && content[k - 1] == '\n' &&
              forall i :: NewlineSearchStart(content) <= i < k - 1 ==> content[i] != '\n'
    ensures LastIndexOf(content, ImportKeyword) >= 0 && k > 0 ==>
              LastIndexOf(content, ImportKeyword) + |ImportKeyword| < k
  {
    NewlineSearch(content);
    IndexOf(content, "\n", LastIndexOf(content, ImportKeyword)) + 1
  }

  /** The newline found after the last `import` lies past the keyword. */
  lemma NewlineSearch(content: string)
    ensures var newline := IndexOf(content, "\n", LastIndexOf(content, ImportKeyword));
            (newline == -1 || (NewlineSearchStart(content) <= newline < |content| && content[newline] == '\n')) &&
            (forall i :: NewlineSearchStart(content) <= i < |content| && (newline == -1 || i < newline) ==> content[i] != '\n') &&
            (LastIndexOf(content, ImportKeyword) >= 0 && newline != -1 ==>
               LastIndexOf(content, ImportKeyword) + |ImportKeyword| <= newline)
  {
    var last := LastIndexOf(content, ImportKeyword);
    var newline := IndexOf(content, "\n", last);
    var start := NewlineSearchStart(content);
    forall i | 0 <= i < |content|
      ensures OccursAt(content, "\n", i) <==> content[i] == '\n'
    {
      NewlineOccursAt(content, i);
    }
    if newline != -1 {
      NewlineOccursAt(content, newline);
      assert start <= newline < |content| && content[newline] == '\n';
    }
    if last >= 0 && newline != -1 {
      assert OccursAt(content, ImportKeyword, last);
      forall j | last <= j < last + |ImportKeyword| ensures content[j] != '\n' {
        assert content[j] == content[last..last + |ImportKeyword|][j - last] == ImportKeyword[j - last];
      }
    }
  }

  /** The content with `stmt` and a newline inserted at the insertion point;
      cutting the inserted line out again gives back the content. */
  function SpliceImport(content: string, stmt: string): (r: string)
    ensures |r| == |content| + |stmt| + 1
    ensures OccursAt(r, stmt + "\n", ImportInsertionPoint(content))
    ensures r[..ImportInsertionPoint(content)] + r[ImportInsertionPoint(content) + |stmt| + 1..] == content
  {
    var k := ImportInsertionPoint(content);
    var beforeImport, afterImport := content[..k], content[k..];
    SpliceAt(beforeImport, stmt, afterImport);
    beforeImport + stmt + "\n" + afterImport
  }

  /** The pieces of `x + stmt + "\n" + y`. */
  lemma SpliceAt(x: string, stmt: string, y: string)
    ensures var r := x + stmt + "\n" + y;
            |r| == |x| + |stmt| + 1 + |y| &&
            OccursAt(r, stmt + "\n", |x|) &&
            r[..|x|] + r[|x| + |stmt| + 1..] == x + y
  {
    var r := x + stmt + "\n" + y;
    assert r[..|x|] == x;
    assert r[|x| + |stmt| + 1..] == y;
    assert r[|x|..|x| + |stmt| + 1] == stmt + "\n";
  }

  /** `addContextProviderToLayout`: insert the provider's import line after
      the last import, then rewrite the first rendering slot. */
  function AddContextProviderToLayout(content: string, p: Provider): string
  {
    var modifiedImportContent := SpliceImport(content, ImportStatement(p));
    ReplaceFirst(modifiedImportContent, ChildrenSlot, ChildrenReplacement(p))
  }

  /** Every `{` of `line` is followed by a space, so no rendering slot can
      start inside `line`. */
  predicate BraceThenSpace(line: string)
  {
    forall d :: 0 <= d < |line| && line[d] == '{' ==> d + 1 < |line| && line[d + 1] == ' '
  }

  lemma ProviderImportLineHasNoSlot(p: Provider)
    requires p != ShadcnToast
    ensures BraceThenSpace(ImportStatement(p) + "\n")
  {
    if p == NextAuthProvider {
      assert '{' !in "import NextAuthProvider from " && '{' !in "\"@/lib/auth/Provider\";";
    } else {
      assert '{' !in "import TrpcProvider from " && '{' !in "\"@/lib/trpc/Provider\";";
    }
  }

  lemma ToasterImportLineHasNoSlot()
    ensures BraceThenSpace(ImportStatement(ShadcnToast) + "\n")
  {
    var before, after, path := "import ", " Toaster } from ", "\"@/components/ui/toaster\";";
    assert "import { Toaster } from " == before + "{" + after;
    assert '{' !in before && '{' !in after && '{' !in path;
    assert ImportStatement(ShadcnToast) + "\n" == before + "{" + after + path + "\n";
  }

  lemma ImportLineHasNoSlot(p: Provider)
    ensures BraceThenSpace(ImportStatement(p) + "\n")
  {
    if p == ShadcnToast {
      ToasterImportLineHasNoSlot();
    } else {
      ProviderImportLineHasNoSlot(p);
    }
  }

  /** Inserting `line` after a line break of `a + b` neither creates nor
      destroys a rendering slot: the slots of `a + line + b` are those of `a`
      and those of `b`, shifted. No slot of `a + b` straddles the break. */
  lemma SlotInInsert(a: string, line: string, b: string, i: int)
    requires |a| == 0 || a[|a| - 1] == '\n'
    requires BraceThenSpace(line)
    ensures OccursAt(a + line + b, ChildrenSlot, i) <==>
              (i + |ChildrenSlot| <= |a| && OccursAt(a, ChildrenSlot, i)) ||
              (|a| + |line| <= i && OccursAt(b, ChildrenSlot, i - |a| - |line|))
  {
    var s := a + line + b;
    var n := |ChildrenSlot|;
    if 0 <= i && i + n <= |a| {
      assert s[i..i + n] == a[i..i + n];
    } else if |a| + |line| <= i && i + n <= |s| {
      assert s[i..i + n] == b[i - |a| - |line|..i - |a| - |line| + n];
    } else if 0 <= i < |a| && i + n <= |s| {
      assert s[|a| - 1] == s[i..i + n][|a| - 1 - i];
    } else if |a| <= i < |a| + |line| && i + n <= |s| {
      assert s[i] == s[i..i + n][0] && s[i + 1] == s[i..i + n][1];
    }
  }

  /** Where the first rendering slot of `a + b` lands in `a + line + b`. */
  lemma FirstSlotInInsert(a: string, line: string, b: string, j: int)
    requires |a| == 0 || a[|a| - 1] == '\n'
    requires BraceThenSpace(line)
    requires OccursAt(a + b, ChildrenSlot, j)
    requires forall i :: 0 <= i < j ==> !OccursAt(a + b, ChildrenSlot, i)
    ensures j < |a| ==> j + |ChildrenSlot| <= |a|
    ensures var first := if j < |a| then j else j + |line|;
            OccursAt(a + line + b, ChildrenSlot, first) &&
            forall i :: 0 <= i < first ==> !OccursAt(a + line + b, ChildrenSlot, i)
  {
    assert a + b == a + "" + b;
    SlotInInsert(a, "", b, j);
    var first := if j < |a| then j else j + |line|;
    SlotInInsert(a, line, b, first);
    forall i | 0 <= i < first
      ensures !OccursAt(a + line + b, ChildrenSlot, i)
    {
      SlotInInsert(a, line, b, i);
      SlotInInsert(a, "", b, i);
      if |a| + |line| <= i {
        SlotInInsert(a, "", b, i - |line|);
      }
    }
  }

  /** Cutting a concatenation inside its first part. */
  lemma CutInFirst(x: string, y: string, i: int)
    requires 0 <= i <= |x|
    ensures (x + y)[..i] == x[..i] && (x + y)[i..] == x[i..] + y
  {
  }

  /** Cutting a concatenation inside its second part. */
  lemma CutInSecond(x: string, y: string, i: int)
    requires |x| <= i <= |x| + |y|
    ensures (x + y)[..i] == x + y[..i - |x|] && (x + y)[i..] == y[i - |x|..]
  {
  }

  /** Replacing the first rendering slot, found at `first`. */
  lemma ReplaceAtFirstSlot(s: string, w: string, first: int)
    requires OccursAt(s, ChildrenSlot, first)
    requires forall i :: 0 <= i < first ==> !OccursAt(s, ChildrenSlot, i)
    ensures ReplaceFirst(s, ChildrenSlot, w) == s[..first] + w + s[first + |ChildrenSlot|..]
  {
  }

  /** Replacing the first rendering slot of `a + line + b`, in terms of the
      first rendering slot `j` of `a + b`. */
  lemma ReplaceSlotInInsert(a: string, line: string, b: string, w: string, j: int)
    requires |a| == 0 || a[|a| - 1] == '\n'
    requires BraceThenSpace(line)
    requires OccursAt(a + b, ChildrenSlot, j)
    requires forall i :: 0 <= i < j ==> !OccursAt(a + b, ChildrenSlot, i)
    ensures j < |a| ==>
              j + |ChildrenSlot| <= |a| &&
              ReplaceFirst(a + line + b, ChildrenSlot, w) == a[..j] + w + a[j + |ChildrenSlot|..] + line + b
    ensures |a| <= j ==>
              ReplaceFirst(a + line + b, ChildrenSlot, w) == a + line + b[..j - |a|] + w + b[j - |a| + |ChildrenSlot|..]
  {
    FirstSlotInInsert(a, line, b, j);
    var s, n := a + line + b, |ChildrenSlot|;
    if j < |a| {
      assert ReplaceFirst(s, ChildrenSlot, w) == s[..j] + w + s[j + n..] by {
        ReplaceAtFirstSlot(s, w, j);
      }
      assert s[..j] == a[..j] by {
        CutInFirst(a + line, b, j);
        CutInFirst(a, line, j);
      }
      assert s[j + n..] == a[j + n..] + line + b by {
        CutInFirst(a + line, b, j + n);
        CutInFirst(a, line, j + n);
      }
      RegroupTail(a[..j], w, a[j + n..], line, b);
    } else {
      assert ReplaceFirst(s, ChildrenSlot, w) == s[..j + |line|] + w + s[j + |line| + n..] by {
        ReplaceAtFirstSlot(s, w, j + |line|);
      }
      assert s[..j + |line|] == a + line + b[..j - |a|] by {
        CutInSecond(a + line, b, j + |line|);
      }
      assert s[j + |line| + n..] == b[j - |a| + n..] by {
        CutInSecond(a + line, b, j + |line| + n);
      }
    }
  }

  /** The spliced content, cut at the insertion point. */
  lemma SpliceParts(content: string, p: Provider)
    ensures var k := ImportInsertionPoint(content);
            SpliceImport(content, ImportStatement(p)) == content[..k] + (ImportStatement(p) + "\n") + content[k..] &&
            content == content[..k] + content[k..] &&
            (k == 0 || content[..k][k - 1] == '\n') &&
            BraceThenSpace(ImportStatement(p) + "\n")
  {
    ImportLineHasNoSlot(p);
    var k := ImportInsertionPoint(content);
    assert content == content[..k] + content[k..];
  }

  /** Inserting `line` after a line break of a text without a rendering
      slot creates none. */
  lemma NoSlotInInsert(a: string, line: string, b: string)
    requires |a| == 0 || a[|a| - 1] == '\n'
    requires BraceThenSpace(line)
    requires forall i :: !OccursAt(a + b, ChildrenSlot, i)
    ensures forall i :: !OccursAt(a + line + b, ChildrenSlot, i)
  {
    assert a + "" + b == a + b;
    forall i ensures !OccursAt(a + line + b, ChildrenSlot, i) {
      SlotInInsert(a, line, b, i);
      SlotInInsert(a, "", b, i);
      SlotInInsert(a, "", b, i - |line|);
    }
  }

  /** With no rendering slot, the patch is the import splice alone. */
  lemma LayoutPatchWithoutSlot(content: string, p: Provider)
    requires forall i :: !OccursAt(content, ChildrenSlot, i)
    ensures var k := ImportInsertionPoint(content);
            var r := AddContextProviderToLayout(content, p);
            r == content[..k] + ImportStatement(p) + "\n" + content[k..] &&
            |r| == |content| + |ImportStatement(p)| + 1
  {
    var k := ImportInsertionPoint(content);
    SpliceParts(content, p);
    var a, b := content[..k], content[k..];
    NoSlotInInsert(a, ImportStatement(p) + "\n", b);
    RegroupLine(a, ImportStatement(p), b);
  }

  /** The patch as a slot replacement in the spliced content. */
  lemma PatchAsInsert(content: string, p: Provider)
    ensures var k := ImportInsertionPoint(content);
            AddContextProviderToLayout(content, p) ==
              ReplaceFirst(content[..k] + (ImportStatement(p) + "\n") + content[k..], ChildrenSlot, ChildrenReplacement(p))
  {
    SpliceParts(content, p);
  }

  /** Slices of a prefix and of a suffix of `c`, as slices of `c`. */
  lemma SlicesOfPrefix(c: string, k: nat, j: nat, n: nat)
    requires j + n <= k <= |c|
    ensures c[..k][..j] == c[..j] && c[..k][j + n..] == c[j + n..k]
  {
  }

  lemma SlicesOfSuffix(c: string, k: nat, j: nat, n: nat)
    requires k <= j && j + n <= |c|
    ensures c[k..][..j - k] == c[k..j] && c[k..][j - k + n..] == c[j + n..]
  {
  }

  /** Replacing the first rendering slot after a line was inserted at `k`,
      in terms of the original content `c` and its first slot `j`. */
  lemma ReplaceSlotAfterSplice(c: string, k: nat, line: string, w: string, j: int)
    requires k <= |c| && (k == 0 || c[k - 1] == '\n')
    requires BraceThenSpace(line)
    requires OccursAt(c, ChildrenSlot, j)
    requires forall i :: 0 <= i < j ==> !OccursAt(c, ChildrenSlot, i)
    ensures j < k ==>
              j + |ChildrenSlot| <= k &&
              ReplaceFirst(c[..k] + line + c[k..], ChildrenSlot, w) == c[..j] + w + c[j + |ChildrenSlot|..k] + line + c[k..]
    ensures k <= j ==>
              ReplaceFirst(c[..k] + line + c[k..], ChildrenSlot, w) == c[..k] + line + c[k..j] + w + c[j + |ChildrenSlot|..]
  {
    var a, b := c[..k], c[k..];
    assert c == a + b;
    ReplaceSlotInInsert(a, line, b, w, j);
    if j < k {
      SlicesOfPrefix(c, k, j, |ChildrenSlot|);
    } else {
      SlicesOfSuffix(c, k, j, |ChildrenSlot|);
    }
  }

  /** With a first rendering slot at `j`, the patch inserts the import line
      at the insertion point, rewrites that one slot and keeps every other
      character, later slots included. */
  lemma LayoutPatchFirstSlot(content: string, p: Provider, j: int)
    requires OccursAt(content, ChildrenSlot, j)
    requires forall i :: 0 <= i < j ==> !OccursAt(content, ChildrenSlot, i)
    ensures var k := ImportInsertionPoint(content);
            var line := ImportStatement(p) + "\n";
            var w := ChildrenReplacement(p);
            var r := AddContextProviderToLayout(content, p);
            (j < k ==> j + |ChildrenSlot| <= k &&
                       r == content[..j] + w + content[j + |ChildrenSlot|..k] + line + content[k..]) &&
            (k <= j ==> r == content[..k] + line + content[k..j] + w + content[j + |ChildrenSlot|..])
  {
    var k := ImportInsertionPoint(content);
    PatchAsInsert(content, p);
    ImportLineHasNoSlot(p);
    ReplaceSlotAfterSplice(content, k, ImportStatement(p) + "\n", ChildrenReplacement(p), j);
  }

  /** The patch always inserts the import line, so its output is longer than
      its input. */
  lemma LayoutPatchGrows(content: string, p: Provider)
    ensures |AddContextProviderToLayout(content, p)| >= |content| + |ImportStatement(p)| + 1
  {
    var j := IndexOf(content, ChildrenSlot, 0);
    if j == -1 {
      LayoutPatchWithoutSlot(content, p);
    } else {
      LayoutPatchFirstSlot(content, p, j);
    }
  }

  /** The patch has no "already present" check: applied to its own output it
      inserts the import line again, so it never reaches a fixed point. */
  lemma LayoutPatchNotIdempotent(content: string, p: Provider)
    ensures var once := AddContextProviderToLayout(content, p);
            AddContextProviderToLayout(once, p) != once
  {
    LayoutPatchGrows(AddContextProviderToLayout(content, p), p);
  }

  /** A line `stmt + "\n"` placed between `x` and `y` holds `stmt` right
      after `x`. */
  lemma StatementInMiddle(x: string, stmt: string, y: string)
    ensures OccursAt(x + (stmt + "\n") + y, stmt, |x|)
  {
    assert (x + (stmt + "\n") + y)[|x|..|x| + |stmt|] == stmt;
  }

  lemma RegroupLine(x: string, stmt: string, y: string)
    ensures x + stmt + "\n" + y == x + (stmt + "\n") + y
  {
  }

  lemma RegroupTail(x: string, m: string, y1: string, y2: string, y3: string)
    ensures x + m + y1 + y2 + y3 == x + m + (y1 + y2 + y3)
  {
  }

  /** The patch leaves the provider's import line in the layout. */
  lemma LayoutPatchImports(content: string, p: Provider)
    ensures exists i :: OccursAt(AddContextProviderToLayout(content, p), ImportStatement(p), i)
  {
    var k := ImportInsertionPoint(content);
    var j := IndexOf(content, ChildrenSlot, 0);
    if j == -1 {
      ImportsWithoutSlot(content, p);
    } else if j < k {
      ImportsSlotBeforeImport(content, p, j);
    } else {
      ImportsSlotAfterImport(content, p, j);
    }
  }

  lemma ImportsWithoutSlot(content: string, p: Provider)
    requires forall i :: !OccursAt(content, ChildrenSlot, i)
    ensures OccursAt(AddContextProviderToLayout(content, p), ImportStatement(p), ImportInsertionPoint(content))
  {
    var k := ImportInsertionPoint(content);
    LayoutPatchWithoutSlot(content, p);
    StatementInMiddle(content[..k], ImportStatement(p), content[k..]);
    RegroupLine(content[..k], ImportStatement(p), content[k..]);
  }

  lemma ImportsSlotBeforeImport(content: string, p: Provider, j: int)
    requires OccursAt(content, ChildrenSlot, j)
    requires forall i :: 0 <= i < j ==> !OccursAt(content, ChildrenSlot, i)
    requires j < ImportInsertionPoint(content)
    ensures exists i :: OccursAt(AddContextProviderToLayout(content, p), ImportStatement(p), i)
  {
    var k := ImportInsertionPoint(content);
    var n := |ChildrenSlot|;
    LayoutPatchFirstSlot(content, p, j);
    StatementInMiddle(content[..j] + ChildrenReplacement(p) + content[j + n..k], ImportStatement(p), content[k..]);
  }

  lemma ImportsSlotAfterImport(content: string, p: Provider, j: int)
    requires OccursAt(content, ChildrenSlot, j)
    requires forall i :: 0 <= i < j ==> !OccursAt(content, ChildrenSlot, i)
    requires ImportInsertionPoint(content) <= j
    ensures OccursAt(AddContextProviderToLayout(content, p), ImportStatement(p), ImportInsertionPoint(content))
  {
    var k := ImportInsertionPoint(content);
    var n := |ChildrenSlot|;
    var line := ImportStatement(p) + "\n";
    var w := ChildrenReplacement(p);
    LayoutPatchFirstSlot(content, p, j);
    StatementInMiddle(content[..k], ImportStatement(p), content[k..j] + w + content[j + n..]);
    RegroupTail(content[..k], line, content[k..j], w, content[j + n..]);
  }

  /** A guarded variant of the patch, not part of the engine as written: a
      layout that already holds the provider's import line is left as it is. */
  function GuardedAddContextProviderToLayout(content: string, p: Provider): (r: string)
    ensures Contains(r, ImportStatement(p))
    ensures Contains(content, ImportStatement(p)) ==> r == content
    ensures !Contains(content, ImportStatement(p)) ==> r == AddContextProviderToLayout(content, p)
  {
    if Contains(content, ImportStatement(p)) then content
    else
      LayoutPatchImports(content, p);
      AddContextProviderToLayout(content, p)
  }

  /** The guarded patch reaches its fixed point after one application. */
  lemma GuardedLayoutPatchIdempotent(content: string, p: Provider)
    ensures var once := GuardedAddContextProviderToLayout(content, p);
            GuardedAddContextProviderToLayout(once, p) == once
  {
  }
}
