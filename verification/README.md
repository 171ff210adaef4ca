# tty-override, modelled in Dafny

tty-override runs a command under two pseudo-terminals, one for standard output and one for standard error. It rewrites what the command prints on its way to the real terminal, following regex rules from a TOML configuration. This project models the sequential core of the tool and proves properties about it:

- **Configuration loader** (`Config::from_toml`, module `Config` in `config.dfy`). It flattens an already-parsed two-level table, `program -> argmatch -> { rules = [[pattern, replacement], ...] }`, into an ordered list of profiles.
  - The table is a sequence of key/value pairs in the order the table iterates. Nothing assumes the keys are sorted.
  - Every `unwrap` of the loader becomes a `Panic` carrying the reason for the abort. The loader has no `Err` path.
  - Whether a pattern compiles is a parameter (`compiles`).
  - Module `Toml` in `toml.dfy` holds the parsed-value datatype and `get`.
- **Stream interceptor** (`cpoverride`, module `Intercept` in `intercept.dfy`). It reads chunks of at most 4096 bytes, decodes each chunk, and applies every rule of every profile in order, each rule to the previous rule's output (module `Rewrite` in `rewrite.dfy`).
  - It then normalises lines with `lines()` followed by `join("\n")` (module `Lines` in `lines.dfy`), encodes the result as UTF-8 (module `Utf8` in `utf8.dfy`), and writes it in full.
  - It stops at the first zero-length read or read error.
  - The read results, the number of bytes each write call accepts, the lossy decoder and regex substitution are all parameters.
  - For stating examples, `Rewrite.LiteralReplace` is a concrete substitution: a global replace of a fixed string. `Rewrite.LiteralReplaceAbsent` and `Rewrite.LiteralSecondPassNoop` are facts about that example substitution only: a pattern that does not occur leaves the text unchanged, so a second pass that finds nothing is the identity.
- **Launch decisions of `main` and `exec`** (module `Launch` in `launch.dfy`):
  - the target's argument list;
  - the refusal of an empty one;
  - exit status 1 of the final process when execution fails;
  - the exit status of each intercepting parent.

  That last status is `waitpid(..).is_ok() as i32`, which is **1 when the wait succeeds and 0 when it fails**. This is the opposite of the usual convention, where 0 means success.

Two properties that follow from the code are worth pointing out:

- **Line normalisation.** `Normalize(s)` is exactly "replace every CR LF pair by LF, then drop one final LF".
- **Chunk boundaries.** Normalisation is applied to each chunk on its own. So when every chunk's rewritten text ends in a line feed, each chunk loses that line feed at its boundary. `Intercept.TwoChunksExample` shows this on concrete input: `"a\n"` and `"b\n"` read as two chunks reach the terminal as `"ab"`, while the same bytes read as one chunk give `"a\nb"`.

## Model

| member | source | states |
|---|---|---|
| Config.RuleFrom | src/config.rs:32-34 | A rule entry loads exactly when it is an array whose first two elements are strings and whose first element compiles. The pattern comes from element 0 and the replacement from element 1; further elements are ignored. Every other entry panics. |
| Config.RulesFrom | src/config.rs:31-39 | A loaded rules array gives one rule per entry, in array order, and each rule is built from its own entry. |
| Config.RulesFromOk | src/config.rs:31-39 | A rules array loads if and only if every one of its entries is acceptable. |
| Config.ProfileFrom | src/config.rs:28-44 | A profile copies its outer key into `program` and its inner key into `argmatch`. Its rules are the loaded `rules` member. A missing or non-array `rules` aborts. An empty `rules` array gives a profile with zero rules. |
| Config.ProfileFromOk | src/config.rs:31-34 | One inner entry loads if and only if it has a `rules` array of acceptable entries. |
| Config.ProgramProfiles | src/config.rs:27-45 | An outer key whose inner table loads yields exactly one profile per inner entry. |
| Config.ProgramProfilesAt | src/config.rs:27-44 | The j-th profile of an outer key is the one built from its j-th inner entry. |
| Config.ProgramProfilesOk | src/config.rs:27-45 | An inner table loads if and only if every inner entry is acceptable. |
| Config.Flatten | src/config.rs:26-46 | When loading succeeds, the number of profiles equals the sum of the inner-table sizes. |
| Config.FlattenPlacement | src/config.rs:26-46 | Inner entry j of outer key i produces the profile at position Offset(table, i) + j. Offset(table, i) is the total size of the inner tables before key i. That profile is the j-th profile of outer key i. |
| Config.FromToml | src/config.rs:24-48 | When loading succeeds, there is one profile per (outer key, inner key) entry. An empty top-level table yields zero profiles. |
| Config.FromTomlOk | src/config.rs:24-48 | The loader returns `Ok` if and only if every outer value is a table of acceptable inner entries. On every other input it panics; it never returns `Err`. |
| Config.FlattenProvenance | src/config.rs:26-44 | The profile at position Offset(table, i) + j carries outer key i as `program` and inner key j as `argmatch`. It is the profile built from that inner entry's value. |
| Config.OffsetOrder | src/config.rs:26-27 | All profiles of an earlier outer key come before all profiles of a later one. |
| Config.SampleLoads | src/config.rs:61-142 | The unit test's table loads as the three expected profiles, with their rules in order. |
| Toml.Member | src/config.rs:31 | `value.get(key)`: only a table has members, and a table's member is its `Get`. Characterised through Toml.Get and Config.ProfileFromOk. |
| Toml.Get | src/config.rs:31 | A lookup finds nothing if and only if no pair has the key. What it finds is the value of a pair with that key. |
| Rewrite.SelectRules | src/main.rs:69-72 | The rules of every profile, in profile order. Characterised by Rewrite.SelectRulesMembers and Rewrite.SelectionIgnoresMatchers. |
| Rewrite.ApplyRules | src/main.rs:72-77 | The left fold of the substitution over a rule list, each rule seeing the previous output. Characterised by Rewrite.ApplyRulesAppend and computed by Rewrite.RewriteChunk. |
| Rewrite.RewriteChunk | src/main.rs:69-79 | The nested loops over profiles and their rules compute the left fold of the substitution over the concatenation of all profiles' rule lists, in order. |
| Rewrite.ApplyRulesAppend | src/main.rs:69-79 | Applying a concatenation of rule lists means applying the first list, then the second to its output. |
| Rewrite.SelectRulesMembers | src/main.rs:69-72 | Every rule of every profile is applied, and no other rule is. |
| Rewrite.SelectionIgnoresMatchers | src/main.rs:69-79 | Profile lists with the same rule lists select the same rules. `program` and `argmatch` are never consulted. |
| Rewrite.RuleOrderMatters | src/main.rs:72-77 | Each rule sees the previous rule's output. With literal substitution, "a"->"b" then "b"->"c" turns "a" into "c", while the reverse order gives "b". |
| Lines.Lines | src/main.rs:81 | `lines()` gives no pieces exactly for empty text, and no piece contains a line feed. |
| Lines.Join | src/main.rs:83 | `join("\n")`: one line feed between consecutive lines, none after the last. Characterised by Lines.LinesJoin as the inverse of `lines()`. |
| Lines.Normalize | src/main.rs:81-83 | `lines()` followed by `join("\n")`. Characterised by Lines.NormalizeCharacterization. |
| Lines.NormalizeCharacterization | src/main.rs:81-83 | `lines()` followed by `join("\n")` equals replacing every CR LF pair by LF and then dropping one final LF. |
| Lines.NormalizeWithoutCr | src/main.rs:81-83 | On text without carriage returns, normalisation removes exactly one final line feed if there is one. Otherwise it returns the text unchanged. |
| Lines.NormalizeShrinks | src/main.rs:81-83 | Normalisation never lengthens the text. |
| Lines.LinesJoin | src/main.rs:81-83 | Splitting joined lines gives the lines back, provided none contains a line feed, none ends in a carriage return, and the last one is not empty. |
| Utf8.Encode | src/main.rs:84 | Each character encodes to between one and four bytes. |
| Utf8.EncodeAppend | src/main.rs:84 | Encoding distributes over concatenation. |
| Intercept.Transform | src/main.rs:67-84 | The bytes written for one chunk: decode, rewrite with the selected rules, normalise lines, encode. Characterised by Intercept.ChunkBoundaryNewlineLoss and Intercept.TransformIgnoresMatchers. |
| Intercept.WriteAll | src/main.rs:84-89 | The write loop delivers exactly the data. Its write calls are the reference sequence of writes. An empty buffer issues no write. |
| Intercept.WritesDeliver | src/main.rs:86-89 | If every write accepts between 1 and all of the offered bytes, the accepted pieces are non-empty. There are at most as many of them as bytes, and together, in order, they are exactly the data. |
| Intercept.Intercept | src/main.rs:60-93 | The read loop stops at the first read that is empty or an error. Every earlier read was non-empty. What it writes is the concatenation, in read order, of the per-chunk transforms. |
| Intercept.EmittedAppend | src/main.rs:63-90 | A session's output is the output of its first part followed by that of the rest, as long as the first part does not end the session. |
| Intercept.EndSilences | src/main.rs:64-65 | After a zero-length read or a read error, nothing more is written, whatever later reads would return. |
| Intercept.TransformIgnoresMatchers | src/main.rs:69-84 | The bytes written for a chunk do not depend on the profiles' `program` and `argmatch`. |
| Intercept.ChunkBoundaryNewlineLoss | src/main.rs:63-89 | Suppose every chunk's rewritten text has no carriage return and ends in a line feed. Then the session writes each text without its final line feed, one byte per chunk fewer than the concatenated texts. |
| Intercept.TwoChunksExample | src/main.rs:63-89 | With no profiles, "a\n" and "b\n" read as two chunks are written as "ab". The same text read as one chunk is written as "a\nb". |
| Launch.TargetArgv | src/main.rs:37-40 | The target's argument list is the wrapper's own list without its first element. |
| Launch.Exec | src/main.rs:51-58 | `exec` fails with `InvalidInput("no command")` exactly when the list is empty. Otherwise, when `execvp` replaces the image, the result is the first argument run with the whole list as its argv; when `execvp` returns an error number, that OS error is returned. |
| Launch.FinalProcess | src/main.rs:37-48 | With at least one target argument, the final process becomes the target command (the wrapper's second argument, with the wrapper's arguments after the first as its argv) exactly when `execvp` replaces the image, and exits with status 1 when `execvp` returns an error. With no target argument it exits with status 1. |
| Launch.InterceptorExitStatus | src/main.rs:24-33 | An intercepting parent exits with 1 exactly when `waitpid` succeeds, and with 0 exactly when it fails. |

## Left out

- Process topology: `forkpty` and its 24×80 window size, both fork branches, the `dup2` re-wiring, and the system calls `waitpid` and `execvp` themselves (src/main.rs:21-35, 56, 99-131). This is operating-system plumbing. The outcomes of `execvp` and `waitpid` are parameters.
- Configuration discovery and reading: the `HOME` lookup, the two configuration paths, `from_file` and `from_str`, which are file I/O plus the TOML text parser (src/main.rs:15-19, src/config.rs:50-58). The loader is modelled on an already-parsed table.
- Regex compilation and `replace_all`: both belong to the regex library and are parameters (`compiles`, `Substitution`).
- `String::from_utf8_lossy`: a library decoder, and a parameter (`Decoder`).
- Intercept.WriteAll: the `unwrap` on a failed write and a write that accepts zero bytes are outside the model. Every write is assumed to accept between 1 and all of the offered bytes (`Progresses`); without that, the source's loop panics or never ends.
- Intercept.Intercept: a session that never produces an empty read or a read error is not modelled. The sequence of read results is finite and contains an end.
- The diagnostic line written to standard error when `exec` fails (src/main.rs:44) is not modelled. The model keeps only the exit status.
- The `CString` conversion panic for arguments that contain a NUL byte (src/main.rs:39) is not modelled.
- Launch.TargetArgv: arguments are modelled as Unicode strings, so the panic of `env::args()` on an argument that is not valid UTF-8 (src/main.rs:37) is not representable.
- Launch.FinalProcess: arguments are modelled as Unicode strings; on an argument that is not valid UTF-8, `env::args()` panics (src/main.rs:37) before `exec` is reached, which the model does not express.
- Config.RuleFrom: the `Panic` payloads name the reason for the abort. They do not reproduce the text of Rust's panic messages.
- Toml.Get: when a key occurs twice in the sequence of pairs, the first pair wins. A parsed TOML table never has duplicate keys.
