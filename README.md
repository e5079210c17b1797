# OpenWebPageCommand — a Dafny model

This project models the "open web page" command of the WhatsON Jenkins plugin.
The command data holds a Jenkins `Address` (a nullable string) and a
`Redirect` flag. `FullAddress` removes every trailing `'/'` from the address.
When `Redirect` is set, it then appends `/display/redirect`. `CanExecute`
enables the command only for command data whose address is neither null nor
empty. `Execute` launches `FullAddress` for any command data, and does nothing
for other parameters.

The model is pure:
- A C# null string is `Option<string>.None`.
- The untyped `object` parameter is `Parameter = WebPage(CommandData) | Other`. `Other` covers both null and every other type.
- `String.TrimEnd(char)` is the recursive function `TrimEnd`. The ghost predicate `IsTrimOf` characterises it independently.
- `Execute` returns the address it would pass to `Process.Start` (`Opens(url)`), or `Nothing` when the parameter is not command data, or `NullReference` when a null `Address` throws as `FullAddress` trims it.

## Model

| member | source | states |
|---|---|---|
| OpenWebPageCommand.TrimEnd | src/Soloplan.WhatsON.Jenkins.GUI/OpenWebPageCommand.cs:39 | the result is a prefix of the input, every dropped character is the trimmed character, and the result does not end with it |
| OpenWebPageCommand.TrimEndUnique | src/Soloplan.WhatsON.Jenkins.GUI/OpenWebPageCommand.cs:39 | any prefix followed only by the trimmed character, and not itself ending with it, is what TrimEnd returns |
| OpenWebPageCommand.TrimEndCharacterized | src/Soloplan.WhatsON.Jenkins.GUI/OpenWebPageCommand.cs:39 | a string satisfies the trim characterisation exactly when TrimEnd returns it (both directions) |
| OpenWebPageCommand.TrimEndIgnoresTrailing | src/Soloplan.WhatsON.Jenkins.GUI/OpenWebPageCommand.cs:39 | appending any number of the trimmed character does not change the trim |
| OpenWebPageCommand.TrimEndIdempotent | src/Soloplan.WhatsON.Jenkins.GUI/OpenWebPageCommand.cs:39 | trimming twice gives the same result as trimming once |
| OpenWebPageCommand.FullAddress | src/Soloplan.WhatsON.Jenkins.GUI/OpenWebPageCommand.cs:39 | needs a non-null address; the result never ends with '/'; with Redirect it ends with "/display/redirect"; without Redirect it is a prefix of Address |
| OpenWebPageCommand.FullAddressWithoutRedirect | src/Soloplan.WhatsON.Jenkins.GUI/OpenWebPageCommand.cs:39 | without Redirect, FullAddress is Address minus its trailing slashes: a prefix whose dropped characters are all '/', and the only such string |
| OpenWebPageCommand.FullAddressWithRedirect | src/Soloplan.WhatsON.Jenkins.GUI/OpenWebPageCommand.cs:39 | with Redirect, FullAddress is the non-redirect address followed by "/display/redirect" |
| OpenWebPageCommand.FullAddressOfSlashes | src/Soloplan.WhatsON.Jenkins.GUI/OpenWebPageCommand.cs:39 | an address of only slashes trims to empty, so FullAddress is "" or exactly "/display/redirect" |
| OpenWebPageCommand.FullAddressIgnoresTrailingSlashes | src/Soloplan.WhatsON.Jenkins.GUI/OpenWebPageCommand.cs:39 | Address and Address followed by any number of '/' give the same FullAddress for the same Redirect |
| OpenWebPageCommand.FullAddressIdempotent | src/Soloplan.WhatsON.Jenkins.GUI/OpenWebPageCommand.cs:39 | a non-redirect FullAddress used as the Address reproduces itself |
| OpenWebPageCommand.Execute | src/Soloplan.WhatsON.Jenkins.GUI/OpenWebPageCommand.cs:28-34 | does nothing exactly for a non-command-data parameter; fails exactly for command data with a null Address; for every other command data, whatever CanExecute says, it opens exactly that data's FullAddress, which does not end with '/' |
| OpenWebPageCommand.CanExecute | src/Soloplan.WhatsON.Jenkins.GUI/OpenWebPageCommand.cs:18-26 | a type test on the parameter plus a null-or-empty test on Address; whenever it enables the command, Execute opens that data's FullAddress |
| OpenWebPageCommand.CanExecuteExactly | src/Soloplan.WhatsON.Jenkins.GUI/OpenWebPageCommand.cs:18-26 | enabled exactly for command data with a non-null, non-empty Address, false for every other parameter |
| OpenWebPageCommand.ExecuteIgnoresGuard | src/Soloplan.WhatsON.Jenkins.GUI/OpenWebPageCommand.cs:28-34 | Execute does not consult CanExecute: a disabled parameter (empty Address, Redirect set) still opens "/display/redirect" |
| OpenWebPageCommand.GuardAdmitsEmptyLaunch | src/Soloplan.WhatsON.Jenkins.GUI/OpenWebPageCommand.cs:18-34 | CanExecute admits every Address made of one or more '/', and without Redirect Execute then opens the empty string |

## Left out

- CommandData: the mutable `OpenWebPageCommandData` object, whose `Address` and `Redirect` have public setters, is modelled as a value read at each call. Each call is exact, but the promise that an enabled command opens FullAddress assumes `Address` is not changed between `CanExecute` and `Execute`. Nothing in `OpenWebPageCommand.cs` checks `CanExecute` again before `Execute`. WPF command sources call `CanExecute` just before `Execute`, but how this command is invoked is not part of this model. `CanExecuteChanged` is never raised, so a bound control's enabled state is not refreshed when `Address` changes.
- `System.Diagnostics.Process.Start` (OpenWebPageCommand.cs:32) is an operating-system call. The model returns the address that would be passed to it. It does not model what the call does with an empty or malformed address; for the empty address (see GuardAdmitsEmptyLaunch) the call throws instead of opening anything.
- The `CanExecuteChanged` event (OpenWebPageCommand.cs:16) is WPF command plumbing and is never raised.
- Strings are sequences of Dafny `char`, which are Unicode scalar values, not UTF-16 code units. A C# string holding a lone surrogate has no counterpart in the model, and a surrogate pair is one `char` here. `TrimEnd('/')` is still exact, because '/' (U+002F) is never part of a surrogate pair.
- `MainWindow.xaml.cs` and `LoggingConfiguration.cs` are WPF window handling, dialogs, file-system I/O and logging setup. They are not part of this model.
- `ObservationScheduler`, `PluginsManager` and the tree view, which `MainWindow.ApplyConfiguration` calls, are defined in other assemblies and are outside this model.
