# kirimase `add` command core, in Dafny

kirimase is a command-line scaffolder for Next.js projects. Its `add` command
installs optional packages into a project. This model covers three parts of it:

- **The layout patch** (`addContextProviderToLayout`). It registers a context
  provider in the root layout `app/layout.tsx`, or `src/app/layout.tsx` when the
  project has a source directory. It inserts the provider's import line after
  the line of the last `import`. It then rewrites the first `{children}` slot:
  the toast component is placed after the slot, and the other providers wrap it.
- **The authentication add-on** (`addNextAuth`). It creates the route handler,
  the session provider, the auth helpers, the auth schema and the sign-in view.
  When the UI library is installed it swaps the sign-in view for the UI variant
  instead. When trpc is installed it patches the trpc files. It then appends the
  provider credentials to `.env`, installs the auth packages, records the add-on
  in the project config and wraps the layout in the session provider.
- **The UI-library add-on** (`installShadcnUI`, `updateSignInComponentWithShadcnUI`).
  It launches the icon install and initialises the library unless
  `components.json` exists. It records the package when the library is set up,
  installs the button and toast components and wires the toaster into the
  layout. When the authentication add-on is installed it swaps the sign-in view.

Files:

- `js_strings.dfy` (module `JsStrings`): the JavaScript string built-ins the
  patch and the `.env` keys rely on, as functions over `seq<char>`:
  - `indexOf` with its clamped start;
  - `lastIndexOf` with its `-1`;
  - `replace` with a string pattern, which rewrites the first occurrence only;
  - `toUpperCase`.
- `add_utils.dfy` (module `AddUtils`): the package menu, the project root, and
  the layout patch as a function from the old layout text to the new one, with
  its properties.
- `collaborators.dfy` (module `Collaborators`): the project config and the
  calls the add-ons make into the shared utilities and generators. Each call is
  one `Action`; an add-on run is the ordered log of its calls.
  - `Select(log, k)` keeps the calls of one kind, in order.
  - `Before(log, k1, k2)` says every call of kind `k1` precedes every call of
    kind `k2`.
  - `LastWrite(log, path)` is the template a file holds after the log;
    `LastWriteIsLast` shows it is the template of the last write to that path.
  - `Rooted(log, hasSrc)` says every file created or replaced, and every
    layout patched, lies under `src/` exactly when the project has a source
    directory.
- `shadcn_ui.dfy` (module `ShadcnUiAddOn`) and `next_auth.dfy` (module `NextAuthAddOn`):
  the two add-ons. Each is a method that appends the calls it makes to a log.
  The world's answers are inputs: whether `components.json` exists, and whether
  each awaited call returns without throwing. The lemmas state what the log selects, in
  which order, and what the sign-in view ends up holding.

Two behaviours of the code are worth stating outright:

- A layout without any `import` does not make the patch fail. The newline search
  then starts at index 0, so the import line goes in after the first line, or
  first of all when the file has no newline.
- The patch has no "already present" check, so applying it twice inserts the
  import twice (`AddUtils.LayoutPatchNotIdempotent`). The guarded variant with
  that check is a separate function and is not what the code does.

## Model

| member | source | states |
|---|---|---|
| `JsStrings.ClampPosition` | src/commands/add/utils.ts:22-23 | the start position of `indexOf` lies in `[0, length]`: negative positions become 0, positions past the end become the length, others are kept |
| `JsStrings.IndexOf` | src/commands/add/utils.ts:22-23 | the result is `-1` or an occurrence at or after the clamped start, and no occurrence lies between the start and the result |
| `JsStrings.LastIndexOf` | src/commands/add/utils.ts:21 | the result is `-1` or an occurrence, and no occurrence lies after it |
| `JsStrings.ReplaceFirst` | src/commands/add/utils.ts:44-48 | a string without the pattern is returned unchanged; otherwise only the first occurrence is replaced, with the text before and after it kept |
| `JsStrings.Upper` | src/commands/add/next-auth/index.ts:73-75 | same length, each character upper-cased, no lower-case ASCII letter left |
| `AddUtils.PackagesTable` | src/commands/add/utils.ts:5-10 | the menu has four entries, drizzle, trpc, next-auth and shadcn-ui in that order, with pairwise distinct identifiers |
| `AddUtils.RootPath` | src/commands/add/next-auth/index.ts:33 | the project root prefix: `src/` with a source directory, empty otherwise; `RootedPath` shows every path under it starts with `src/` exactly when the project has one |
| `AddUtils.RootedPath` | src/commands/add/utils.ts:16 | a path under the project root starts with `src/` exactly when the project has a source directory |
| `AddUtils.LayoutPath` | src/commands/add/utils.ts:16 | the layout is `src/app/layout.tsx` with a source directory and `app/layout.tsx` without |
| `AddUtils.ImportStatement` | src/commands/add/utils.ts:27-38 | the import line of each provider, as in the switch; `ImportStatementsDistinct` shows the three lines differ and `ImportLineHasNoSlot` that none holds a `{children}` slot |
| `AddUtils.ImportStatementsDistinct` | src/commands/add/utils.ts:27-38 | the three providers have three different import lines |
| `AddUtils.ChildrenReplacement` | src/commands/add/utils.ts:42-48 | the slot's replacement is longer than the slot and still contains `{children}` (the toaster follows the slot; the providers wrap it) |
| `AddUtils.ImportInsertionPoint` | src/commands/add/utils.ts:21-23 | the insertion point is just past the first newline at or after the last `import` (or index 0 when there is none), past the keyword itself; it is 0 exactly when no newline follows |
| `AddUtils.NewlineSearch` | src/commands/add/utils.ts:21-23 | the newline search from the last `import` finds the first newline after the keyword, or none |
| `AddUtils.SpliceImport` | src/commands/add/utils.ts:24-25 | the spliced text is longer by the line and its newline, holds the line at the insertion point, and cutting the line out gives back the old text |
| `AddUtils.AddContextProviderToLayout` | src/commands/add/utils.ts:12-50 | the patch on the layout text: the import line spliced in after the line of the last `import`, then the first `{children}` rewritten; `LayoutPatchWithoutSlot` and `LayoutPatchFirstSlot` characterise its output for every layout |
| `AddUtils.LayoutPatchWithoutSlot` | src/commands/add/utils.ts:40-48 | with no `{children}` the patch only inserts the import line, and the output length is the input length plus the line plus one |
| `AddUtils.LayoutPatchFirstSlot` | src/commands/add/utils.ts:40-48 | only the first `{children}` is rewritten, whether it lies before or after the insertion point, and everything else is kept verbatim around the inserted line |
| `AddUtils.LayoutPatchGrows` | src/commands/add/utils.ts:12-50 | the patched layout is longer than the old one by at least the import line and its newline |
| `AddUtils.LayoutPatchNotIdempotent` | src/commands/add/utils.ts:12-50 | patching a patched layout with the same provider changes it again |
| `AddUtils.LayoutPatchImports` | src/commands/add/utils.ts:40 | the patched layout holds the provider's import line |
| `AddUtils.GuardedAddContextProviderToLayout` | src/commands/add/utils.ts:12-50 | a variant: a layout already holding the import line is returned unchanged, any other layout gets exactly the patch, and the result always holds the line |
| `AddUtils.GuardedLayoutPatchIdempotent` | src/commands/add/utils.ts:12-50 | the guarded variant reaches its fixed point after one application |
| `ShadcnUiAddOn.InitArgs` | src/commands/add/shadcn-ui/index.ts:24-26 | `dlx shadcn-ui@latest init` for pnpm, `shadcn-ui@latest init` for the other package managers |
| `ShadcnUiAddOn.SignInPath` | src/commands/add/shadcn-ui/index.ts:48-49 | the sign-in view lies at `components/auth/SignIn.tsx` under the project root: its path starts with `src/` exactly when the project has a source directory, and `SignInTarget` gives both paths written out |
| `ShadcnUiAddOn.SignInTarget` | src/commands/add/shadcn-ui/index.ts:74 | the sign-in view is `src/components/auth/SignIn.tsx` with a source directory and `components/auth/SignIn.tsx` without |
| `ShadcnUiAddOn.UpdateSignInComponentWithShadcnUI` | src/commands/add/shadcn-ui/index.ts:47-75 | the hook replaces the sign-in view, under the project root, with the fixed UI-library template |
| `ShadcnUiAddOn.InitializeShadcnUI` | src/commands/add/shadcn-ui/index.ts:28-41 | with `components.json` present the package is only recorded; otherwise init runs with `InitArgs`, and the package is recorded after it only when the awaited `execa` call resolves; a rejection is caught and reported |
| `ShadcnUiAddOn.WireComponents` | src/commands/add/shadcn-ui/index.ts:42-44 | once the awaited component install returns without throwing, the toaster patches the layout, then the sign-in view is replaced exactly when next-auth is among the packages; when it throws, the run stops |
| `ShadcnUiAddOn.WiringNone` | src/commands/add/shadcn-ui/index.ts:42 | a component install that throws is followed by nothing |
| `ShadcnUiAddOn.WiringWithoutSignIn` | src/commands/add/shadcn-ui/index.ts:43-44 | without next-auth the wiring is the layout patch alone, and the sign-in view is not written |
| `ShadcnUiAddOn.WiringWithSignIn` | src/commands/add/shadcn-ui/index.ts:43-44 | with next-auth the layout patch comes first, then the sign-in view gets the UI-library variant |
| `ShadcnUiAddOn.InstallShadcnUI` | src/commands/add/shadcn-ui/index.ts:15-45 | the icon install is launched first and is the only package install; the add-on is recorded iff the library was set up, init runs iff `components.json` is absent, and the components are installed once whatever the init outcome; layout patch and sign-in swap as in `WireComponents`; init precedes the record, which precedes the component install; init precedes the component install even when it fails; the component install precedes the layout patch, which precedes the swap; no file is created, no trpc file patched, no `.env` written; the log is `InstallLog` of a setup meeting `InitLogged` and a wiring meeting `WiringLogged`, so the `InstallLog*` lemmas hold of it |
| `ShadcnUiAddOn.InstallLogSelect` | src/commands/add/shadcn-ui/index.ts:20-44 | for every setup and wiring meeting `InitLogged` and `WiringLogged` (as the setup and wiring of `InstallShadcnUI` do), the calls of each kind in the install log are those of the icon install, of the setup, of the component install and of the wiring, in that order |
| `ShadcnUiAddOn.InstallLogSetup` | src/commands/add/shadcn-ui/index.ts:28-42 | for every setup and wiring meeting `InitLogged` and `WiringLogged` (as the setup and wiring of `InstallShadcnUI` do), the install log records the package and runs init as the setup decided, installs the components exactly once, and installs no package but `lucide-react` |
| `ShadcnUiAddOn.InstallLogWiring` | src/commands/add/shadcn-ui/index.ts:43-44 | for every setup and wiring meeting `InitLogged` and `WiringLogged` (as the setup and wiring of `InstallShadcnUI` do), the install log patches the layout and swaps the sign-in view as the wiring decided, and creates no file |
| `ShadcnUiAddOn.InstallLogOrder` | src/commands/add/shadcn-ui/index.ts:28-44 | for every setup and wiring meeting `InitLogged` and `WiringLogged` (as the setup and wiring of `InstallShadcnUI` do), init before the record, the record before the component install, init before the component install whatever init's outcome, the component install before the layout patch, the layout patch before the sign-in swap |
| `ShadcnUiAddOn.InstallLogSignIn` | src/commands/add/shadcn-ui/index.ts:44 | for every setup and wiring meeting `InitLogged` and `WiringLogged` (as the setup and wiring of `InstallShadcnUI` do), the sign-in view ends with the UI-library template exactly when the components installed and next-auth is among the packages, and is not written otherwise |
| `NextAuthAddOn.ProviderEnvEntries` | src/commands/add/next-auth/index.ts:72-78 | two entries per provider, in provider order: the client id placeholder, then the client secret placeholder |
| `NextAuthAddOn.EnvEntries` | src/commands/add/next-auth/index.ts:70-79 | `1 + 2n` entries: `NEXTAUTH_SECRET` first, then `UPPER(p)_CLIENT_ID = your_p_id_here` and `UPPER(p)_CLIENT_SECRET = your_p_secret_here` for each provider `p` |
| `NextAuthAddOn.ClientIdEntry` | src/commands/add/next-auth/index.ts:73 | a provider's client id entry: its upper-cased name followed by `_CLIENT_ID`, with the value `your_<provider>_id_here`; `ClientKeysApart` and `ClientKeysNotSecret` show it clashes with no secret key |
| `NextAuthAddOn.ClientSecretEntry` | src/commands/add/next-auth/index.ts:74-77 | a provider's client secret entry: its upper-cased name followed by `_CLIENT_SECRET`, with the value `your_<provider>_secret_here` |
| `NextAuthAddOn.ClientKeysNotSecret` | src/commands/add/next-auth/index.ts:71-77 | no provider key equals `NEXTAUTH_SECRET` |
| `NextAuthAddOn.ClientKeysApart` | src/commands/add/next-auth/index.ts:73-76 | a client id key never equals a client secret key |
| `NextAuthAddOn.EntryKey` | src/commands/add/next-auth/index.ts:72-78 | entry `i > 0` is keyed by the upper-cased name of provider `(i - 1) / 2` and the id or secret suffix by parity |
| `NextAuthAddOn.EnvKeysDistinct` | src/commands/add/next-auth/index.ts:70-79 | the `.env` keys are pairwise distinct if and only if the chosen providers are pairwise distinct once upper-cased |
| `NextAuthAddOn.EnvKeysUpper` | src/commands/add/next-auth/index.ts:71-76 | no `.env` key holds a lower-case letter |
| `NextAuthAddOn.AuthFiles` | src/commands/add/next-auth/index.ts:33-50 | four file creations, each under `src/` exactly when the project has a source directory |
| `NextAuthAddOn.SignInStep` | src/commands/add/next-auth/index.ts:52-60 | the sign-in view is replaced with the UI-library variant iff shadcn-ui is installed, and created from the plain template otherwise, at `SignInPath` |
| `NextAuthAddOn.NextAuthLog` | src/commands/add/next-auth/index.ts:35-91 | the calls of `addNextAuth` in source order: the four auth files, the sign-in step, the trpc patches, the `.env` append, the package install and the two finishing calls; `AddNextAuth` produces it and the `NextAuthLog*` lemmas characterise it |
| `NextAuthAddOn.AddNextAuth` | src/commands/add/next-auth/index.ts:24-91 | the calls made, step by step, are the log `NextAuthLog`: four creations, the sign-in step, the trpc patches when trpc is installed, the `.env` append, the package install and, only when that call returns without throwing, the record and the layout patch |
| `NextAuthAddOn.FinishStepsSelect` | src/commands/add/next-auth/index.ts:89-91 | after an install call that returns without throwing, one record of next-auth and one layout patch with the session provider; nothing after one that throws |
| `NextAuthAddOn.StepsSelect` | src/commands/add/next-auth/index.ts:35-91 | the calls of each kind in a log laid out like `addNextAuth` are those of its parts, in order |
| `NextAuthAddOn.NextAuthLogSelect` | src/commands/add/next-auth/index.ts:35-91 | the same for the log of `addNextAuth` itself |
| `NextAuthAddOn.NextAuthLogCreates` | src/commands/add/next-auth/index.ts:35-60 | the four creations happen in order, followed by the plain sign-in view's creation when shadcn-ui is not installed, and by no other creation |
| `NextAuthAddOn.NextAuthLogReplaces` | src/commands/add/next-auth/index.ts:53-60 | the only replacement is the sign-in view swapped for the shadcn-ui variant, exactly when shadcn-ui is installed; with the row above, exactly one sign-in action happens |
| `NextAuthAddOn.NextAuthLogTrpc` | src/commands/add/next-auth/index.ts:63-67 | the three trpc patches run, in order, iff trpc is installed |
| `NextAuthAddOn.NextAuthLogEnvAndInstall` | src/commands/add/next-auth/index.ts:70-88 | one `.env` append of `EnvEntries`, and one install of `@auth/core @auth/drizzle-adapter next-auth` with the preferred package manager |
| `NextAuthAddOn.NextAuthLogFinish` | src/commands/add/next-auth/index.ts:82-91 | next-auth is recorded, and the layout wrapped in the session provider, exactly when the awaited install call returns without throwing |
| `NextAuthAddOn.NextAuthLogNoUiCalls` | src/commands/add/next-auth/index.ts:24-91 | the add-on never runs the UI-library init or component install |
| `NextAuthAddOn.StepsStaged` | src/commands/add/next-auth/index.ts:35-91 | a log laid out like `addNextAuth` makes its calls stage by stage: file creations and replacements, trpc patches, `.env`, install, record, layout |
| `NextAuthAddOn.StepsOrder` | src/commands/add/next-auth/index.ts:35-91 | the ordering facts of `NextAuthLogOrder`, for any log laid out like `addNextAuth` |
| `NextAuthAddOn.NextAuthLogOrder` | src/commands/add/next-auth/index.ts:35-91 | file creations and replacements precede the trpc patches, which precede the `.env` append, which precedes the install; the record follows all of them and precedes the layout patch |
| `NextAuthAddOn.NextAuthLogRooted` | src/commands/add/next-auth/index.ts:33-91 | every file created or replaced, and the layout patched, lies under `src/` exactly when the project has a source directory |
| `NextAuthAddOn.NextAuthLogSignIn` | src/commands/add/next-auth/index.ts:52-60 | the sign-in view ends with the UI-library template iff shadcn-ui is installed, with the plain one otherwise, whatever the outcome of the install call |

## Left out

- Prompts are left out: the provider checkbox is the `providers` input.
- Console messages are left out, including the per-provider hints.
- Reading the config from disk is left out: it is the `config` input.
- Reading and writing the layout file are left out. The patch is modelled as a
  function on the layout text, and a failed `readFileSync` is not modelled.
- The shared utilities are calls in the log. Of their effect on disk, only
  the template that `createFile` and `replaceFile` leave in a file is modelled,
  by `LastWrite`. Not modelled: what `installPackages`,
  `installShadcnUIComponents` and `pmInstallCommand` do, the de-duplication in
  `addPackageToConfig`, and the handling of keys already present in
  `addToDotEnv`.
- `Collaborators.LastWrite`: each `createFile` or `replaceFile` is assumed to
  return and leave its template in the file. This includes a `replaceFile` of
  a file this run never created, such as the sign-in view that the
  authentication add-on replaces when shadcn-ui is installed. `replaceFile` is
  not part of this model, so whether it creates a missing file or directory is
  not known.
- `Collaborators.Rooted`: says nothing about the `.env` append or the trpc
  patches. Their paths are chosen inside `addToDotEnv` and the trpc
  generators, which are not part of this model, so those calls carry no path.
- The synchronous helpers are assumed not to throw: `createFile`,
  `replaceFile`, `addToDotEnv`, `addPackageToConfig`, the layout patch and the
  trpc generators. Each log is the run in which every such call returns. In
  the code, a throw from one of them ends the run at that call, and the logs
  do not capture that.
- The generators' output text and the two sign-in view templates are left out;
  each is an opaque `Template` value.
- Subprocesses are reduced to one input each: whether the awaited call
  returns without throwing. The init subprocess runs through the manager's
  command, named by `RunInit`'s manager.
- `NextAuthAddOn.AddNextAuth`: `installOk` is true when the awaited `installPackages`
  call returns without throwing. That helper is not part of this model, so a
  failure it catches and reports itself counts as `true`: the add-on is then
  recorded and the layout patched.
- `ShadcnUiAddOn.WireComponents`: `componentsOk` is true when the awaited
  `installShadcnUIComponents` call returns without throwing. That helper is not
  part of this model, so a failure it catches itself counts as `true`: the
  layout is then patched and the sign-in view swapped.
- `ShadcnUiAddOn.InstallShadcnUI`: the icon install is not awaited. It is logged
  when it is launched, first, and its completion and failure are not modelled.
- The provider table (`AuthProviders`) is not modelled: it only supplies the
  prompt choices and the hint URLs.
- `JsStrings.ReplaceFirst`: does not model `$` patterns in the replacement
  string, because the replacements used here contain no `$`.
- `JsStrings.Upper`: upper-cases ASCII letters only. JavaScript's full Unicode
  case mapping is not modelled.
- `AddUtils.PackagesTable` is stated about the menu constant; the display names
  are kept but nothing is proved about them.
