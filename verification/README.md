# Models and proofs for onadata

Dafny models of the parts of onadata with the most state, branching and arithmetic, and proofs of what they keep.
`dafny verify dfyconfig.toml` checks the whole project.

Code that updates state in place is a class or a method with loops, proved against a function of the old state; the
properties are then proved about that function, over all inputs or over all runs, and stated without its helpers: on
rows, cells, words, element chains, values and permissions. Where a property the documentation
or a reader would expect does not hold of the code, the code is kept as it is, and a lemma says for all inputs exactly
when it does hold. Further lemmas give inputs and runs where it fails.

- **Managed keys** (`Kms`, `KmsRuns`, `KmsLaws`, `KmsDecrypt`): keys, forms and form-version-to-key rows under creation,
  encryption, rotation, disabling and the two sweeps, driven by a clock; decryption of one submission.
- **Submissions** (`XmlDict`, `XmlLeaves`, `XmlRepeats`, `FlatDict`, `FlatIndexed`, with `Grouping` and `Text`): from the
  XML tree to a nested dictionary, to the flat dictionary with nested repeats, and to the indexed one.
- **Queries** (`QueryWhere`, `QueryMeaning`, `QueryExact`, `QueryValues`, `QueryFaults`, `QuerySql`): Mongo-style
  queries compiled to clauses with placeholders and parameters, an evaluator for them, the meaning of a query on places
  and on ordered values, refused queries, and the shape of the SQL.
- **Workbooks** (`SheetNames`, `XlsWriter`, `XlsLaws`): sheet names, columns, rows and the index columns.
- **SMS** (`SmsText`, `SmsForm`, `SmsParser`, `SmsRoundTrip`, `SmsSending`, `SmsAnswers`, with `Positions`): the
  compatibility check, the parser, a printer, what any text means, and which texts an SMS can hand to a question.
- **Renderers** (`StreamXml`, `StreamRender`, `StreamMarks`, `StreamText`, `StreamAccepts`, `ManifestCache`,
  `ManifestStreams`, `FloipRows`) and FLOIP responses (`Floip`): streamed and whole documents, what their elements hold,
  a reader for their text, the manifest cache under concurrent requests, row identifiers, grouping.
- **Merged forms** (`MergedForm`, `MergedLaws`): the tree of the fields all forms share.
- **Permissions** (`Permissions`, `ShareProject`, `OrgMembers`, `OrgLaws`): roles, project sharing, organization membership.

What the proofs show to be different from what one would expect:

- Two re-encryptions of a form within one minute leave two key rows for one form version (`KmsRuns.SameMinuteIsAmbiguous`).
- Text or CDATA beside other content that holds text is lost (`XmlLeaves.BuiltCount`).
- Unknown operators push parameters without placeholders (`QueryMeaning.WhereEmits`). Null on a table column, the values
  of a repeated key and booleans are compared as Python writes them (`QueryExact.QueryMeaningExactly`); inside `$or` operators are dropped,
  numbers are not compared as texts, and an alternative with several keys is joined with OR
  (`QueryExact.MemberMeaningExactly`).
- `$or` can emit empty parentheses (`QuerySql.EmittedIsSqlExactly`) and is lost on a second call
  (`QuerySql.SameAnswerAgainExactly`).
- Stored row indices are wrong for renamed sheets from the second observation on (`XlsWriter.RenamedIndicesExactly`,
  `XlsWriter.LongNamesDrift`).
- Notes, calculations, meta questions and, before a group's last answer, disallowed media shift SMS answers
  (`SmsRoundTrip.GroupRoundTripExactly`). The compatibility check passes forms whose datetimes or options cannot be sent
  (`SmsSending.DateSentExactly`, `SmsSending.OptionSentExactly`).
- A stream ends at the first falsy item (`StreamRender.StreamedIsRenderedExactly`, `StreamRender.FormsRenderedExactly`);
  the manifest cache can hold a manifest twice over (`ManifestCache.CompleteAtReleaseExactly`).
- A FLOIP session of one row takes its contact from the next session (`Floip.MetaExactly`); row identifiers beyond 2^53
  can coincide (`FloipRows.FloatPairingDistinctExactly`, `FloipRows.FloatPairingCollides`).
- Only top-level selects of a merged form get the options of all forms (`MergedForm.NestedSelectsKeepOptions`).
- dataentry-only and editor-no-download read back from a project as other roles (`Permissions.ProjectRoleReadsBackExactly`).
- Two requests validated together can leave an organization without owners (`OrgMembers.CheckedApartExactly`).
- A member added with a role other than owner loses the permission to view the members' team, contrary to what
  `add_user_to_team` announces (`OrgMembers.NonOwnerViewsTeamExactly`).

## Model

| member | source | states |
|---|---|---|
| Kms.KeyManager.CreateKey | onadata/libs/kms/tools.py:195-275 | A new active key with the KMS's public key and an expiry only when a rotation duration is configured; without an answer from the KMS nothing changes. |
| Kms.KeyManager.DisableKey | onadata/libs/kms/tools.py:279-300 | The key becomes inactive and dated; a disabled key stays as it is, and a failing KMS leaves all tables alone. |
| Kms.KeyManager.EncryptForm | onadata/libs/kms/tools.py:313-341 | Fails exactly when the row (form, key, minute) is there; else the form is stamped, managed and carries the key's public key, and the row is added. |
| Kms.KeyManager.RotateKey | onadata/libs/kms/tools.py:345-421 | The three tables after a rotation, for every outcome: refused, rolled back (no expiry date or no answer from the KMS), or a new key for every form that ever had a row for the old one. |
| Kms.KeyManager.EncryptXform | onadata/libs/kms/tools.py:425-454 | The guards in order (encrypted already, submissions, owner not an organization, no active key) and the oldest active key. |
| Kms.KeyManager.DisableXformEncryption | onadata/libs/kms/tools.py:599-643 | The guards in order and the form's new stamp; rows stay. |
| Kms.KeyManager.RotateExpiredKeys | onadata/libs/kms/tools.py:751-763 | The sweep goes through the keys due at its start, past refusals, until a crash. |
| Kms.KeyManager.DisableExpiredKeys | onadata/libs/kms/tools.py:766-786 | The sweep disables the keys past expiry and grace and survives a failing KMS. |
| Kms.FirstActive | onadata/libs/kms/tools.py:436-441 | The oldest active key of an organization, and none exactly when there is none. |
| KmsRuns.RunKeepsGood | onadata/libs/kms/tools.py:195-454 | Invariant of every run: a key is active exactly when neither rotated nor disabled, has a grace end exactly when rotated, and every managed form has a row for its version with an unrotated key. |
| KmsRuns.ManagedFormsHaveAnUnrotatedKey | onadata/libs/kms/tools.py:313-332 | In every run a managed form is encrypted and has a row for its current version whose key carries the form's public key and was never rotated. |
| KmsRuns.ManagedFormsHaveAnActiveKey | onadata/libs/kms/tools.py:766-786 | When only the sweep disables keys, that key is active. |
| KmsRuns.DisabledKeysArePastGrace | onadata/libs/kms/tools.py:769-786 | When only the sweep disables keys, a disabled key was rotated and was disabled no sooner than expiry plus grace. |
| KmsRuns.OldVersionsStayDecryptable | onadata/libs/kms/tools.py:377-410 | A row is never lost in any continuation of a run, and its key stays enabled until the end of its grace period. |
| KmsRuns.RunKeepsPublicKeys | onadata/libs/kms/tools.py:232-275 | In every run keys are only added and keep their public keys and organizations. |
| KmsRuns.RotateKeepsActiveCount | onadata/libs/kms/tools.py:377-410 | A rotation keeps every organization's number of active keys. |
| KmsRuns.RotateReencryptsExactlyTheUsers | onadata/libs/kms/tools.py:384-391 | A rotation re-encrypts exactly the forms that ever had a row for the key, also those whose encryption was stopped, and leaves every other form alone. |
| KmsRuns.RotateAllChanges | onadata/libs/kms/tools.py:751-763 | The rotating sweep finishes exactly when the KMS answers every request; then each due key is retired, no other key changes and as many keys are new. |
| KmsRuns.RotateExpiredChanges | onadata/libs/kms/tools.py:751-763 | The same key by key: retired exactly when due. |
| KmsRuns.DisableExpiredChanges | onadata/libs/kms/tools.py:766-786 | The disabling sweep disables exactly the due keys for which the KMS answered and changes nothing else. |
| KmsRuns.NoDurationNoRotation | onadata/libs/kms/tools.py:393-401 | Without a rotation duration no key is ever rotated, because a rotation reads the missing expiry date and rolls back. |
| KmsRuns.RunUniqueExactly | onadata/libs/kms/tools.py:314-321 | In every run, form versions have one key row each exactly when no form is stamped twice within a minute. |
| KmsRuns.SameMinuteIsAmbiguous | onadata/libs/kms/tools.py:314-321 | A concrete run: encrypting a form and rotating its key within one minute leaves two rows for one version. |
| KmsLaws.CreateExactly | onadata/libs/kms/tools.py:195-275 | A created key is active, the organization's, carries the KMS's public key and expires after the configured duration, if any; no answer, no key. |
| KmsLaws.DisableExactly | onadata/libs/kms/tools.py:279-300 | Exactly a key that is not disabled yet changes, when the KMS answers: it is inactive and dated. |
| KmsLaws.EncryptExactly | onadata/libs/kms/tools.py:425-454 | Encryption changes the tables if and only if the form is not encrypted (or override is given), has no submissions, its owner is an organization with an active key, and the row is new; which other cases are done, refused and crashed. |
| KmsLaws.EncryptChanges | onadata/libs/kms/tools.py:313-341 | What it changes: the one form, with the oldest active key and the minute's stamp, and one row. |
| KmsLaws.StopEncryptingExactly | onadata/libs/kms/tools.py:599-643 | Encryption stops if and only if the form is encrypted, has no submissions and has a row for its version; what then changes. |
| KmsLaws.RotateExactly | onadata/libs/kms/tools.py:345-375 | A rotation is refused exactly for a disabled or rotated key; otherwise it happens if and only if the KMS answers and the key has an expiry date. |
| KmsLaws.RotateChanges | onadata/libs/kms/tools.py:377-410 | What a rotation does to the old key's dates, to the new key, to each form that ever had a row for the old one, and to the rows. |
| KmsLaws.SubmissionsFreezeForms | onadata/libs/kms/tools.py:425-454 | In every run a form with submissions keeps its version, public key and encryption until a key it has a row for is rotated. |
| KmsLaws.DisabledForEver | onadata/libs/kms/tools.py:279-300 | In every run a disabled key stays exactly as it is. |
| KmsLaws.SweepDisablesExactly | onadata/libs/kms/tools.py:766-786 | The disabling sweep disables a key if and only if its expiry and grace are past, it is not disabled, and the KMS answers. |
| KmsLaws.SweepRotatesExactly | onadata/libs/kms/tools.py:751-763 | A finished rotating sweep retires a key if and only if its expiry is past and it is neither disabled nor rotated. |
| KmsDecrypt.Submission.DecryptInstance | onadata/libs/kms/tools.py:474-595 | The stored submission and the error for every branch: not encrypted, unmanaged, no key, disabled key, media missing, invalid, any other failure, success. |
| KmsDecrypt.DecryptAllOrNothing | onadata/libs/kms/tools.py:537-595 | A decryption leaves XML, attachments and history alone, or saves the old XML as history, leaves exactly the decrypted files live and stores the last decrypted submission. |
| KmsDecrypt.IncrementedAtMostOnce | onadata/libs/kms/tools.py:537-591 | Over any run of decryptions and edits the decrypted-submission increment is scheduled at most once. |
| KmsDecrypt.IncrementedExactly | onadata/libs/kms/tools.py:537-591 | It is scheduled if and only if there is no history yet and the first event of the run that keeps one is a successful decryption. |
| KmsDecrypt.SubmissionFindsItsKey | onadata/libs/kms/tools.py:500-535 | A submission made with a managed form's version finds, in any continuation of the run, one key row with the public key the form had, enabled until the end of its grace period. |
| KmsDecrypt.DecryptedExactly | onadata/libs/kms/tools.py:474-595 | A submission is decrypted if and only if it is encrypted, its form is or was managed, exactly one row has its form and version, that row's key is not disabled, all media arrived and the files end complete. |
| KmsDecrypt.FailureNamesTheReason | onadata/libs/kms/tools.py:474-595 | The failure is that of the first of these conditions that is not met. |
| KmsDecrypt.FailureIsStored | onadata/libs/kms/tools.py:474-535 | Which failures are stored with the submission, and that they change nothing else. |
| KmsDecrypt.SuccessExactly | onadata/libs/kms/tools.py:537-595 | After a decryption: XML and status by the last file named "submission.xml" in any case; earlier attachments are no longer live. |
| KmsDecrypt.SweptVersionsStayEncrypted | onadata/libs/kms/tools.py:515-519 | Once the sweep has disabled a version's key, no submission of that version is decrypted in any continuation. |
| XmlDict.XmlNodeToDict | onadata/apps/logger/xform_instance_parser.py:187-240 | The dictionary of every element tree: None, or a dictionary whose only key is the node's name; so the assertion in the loop never fires. |
| XmlDict.AddedIsGrouped | onadata/apps/logger/xform_instance_parser.py:222-238 | One turn of the loop keeps the dictionary the grouping of the children seen so far. |
| XmlLeaves.LeavesKeptExactly | onadata/apps/logger/xform_instance_parser.py:187-240 | The dictionary holds at every path exactly the tree's texts there, in document order, if and only if the tree has no text or CDATA beside other content that holds text. |
| XmlLeaves.GroupingKeepsLeaves | onadata/apps/logger/xform_instance_parser.py:222-238 | Grouping children by name keeps the sequence of leaf texts at each path. |
| XmlLeaves.BuiltCount | onadata/apps/logger/xform_instance_parser.py:194-201 | Nothing is invented, and a tree with such mixed content loses some text. |
| XmlLeaves.RepeatsBecomeLists | onadata/apps/logger/xform_instance_parser.py:307-325 | A declared repeat, and a name that occurs more than once, becomes the list of its non-empty occurrences in order; a single occurrence stays alone; no other key appears. |
| XmlRepeats.DeclaredRepeatsAreLists | onadata/apps/logger/xform_instance_parser.py:307-325 | From the root on, repeats declared by their joined names below it are lists, one entry per occurrence that holds data; any other name is a list only if it occurs several times. |
| XmlRepeats.RootNameIsIrrelevant | onadata/apps/logger/xform_instance_parser.py:307-325 | Renaming the root changes nothing in the dictionary below it. |
| FlatDict.ParsedIsValid | onadata/apps/logger/xform_instance_parser.py:187-240 | Every dictionary the parser builds has distinct, non-empty entries and lists without lists in them. |
| FlatDict.FlatPaths | onadata/apps/logger/xform_instance_parser.py:276-304 | Flattening with nested repeats gives pairwise distinct paths, all below the prefix. |
| FlatDict.CollectIsKeyed | onadata/apps/logger/xform_instance_parser.py:371-372 | The paths stay distinct after joining with "/" without the root: no flat key is overwritten. |
| FlatDict.UnflattenFlatten | onadata/apps/logger/xform_instance_parser.py:276-304 | Unflattening the flat dictionary restores every dictionary the parser can build. |
| FlatIndexed.SameLeavesIndexed | onadata/apps/logger/xform_instance_parser.py:243-273 | Indexed flattening enumerates the dictionary's leaves in order; only the indices in the paths are new. |
| FlatIndexed.IndexedDistinct | onadata/apps/logger/xform_instance_parser.py:257-266 | Its paths, with 1-based indices and [1] omitted, are pairwise distinct. |
| FlatIndexed.IndexedWalks | onadata/apps/logger/xform_instance_parser.py:250-273 | Every indexed path leads, part by part, to its value: a name to a value or a list's first item, the name with [n], n from 2, to the n-th item. |
| FlatIndexed.XFormInstanceParser.Parse | onadata/apps/logger/xform_instance_parser.py:350-373 | Parsing fails exactly for a root without data; otherwise both dictionaries are set from the tree. |
| FlatIndexed.FlatDictKeepsEverything | onadata/apps/logger/xform_instance_parser.py:350-373 | From a tree without mixed content to the flat dictionary and back: the tree's texts, path by path, in document order. |
| QueryWhere.ParseWhere | onadata/apps/viewer/parsed_instance_tools.py:49-101 | Clauses and parameters of a query's keys, operator by operator, with the date error, followed by the alternatives passed in. |
| QueryWhere.ParseOr | onadata/apps/viewer/parsed_instance_tools.py:148-173 | Clauses and parameters of the members of "$or". |
| QueryWhere.QueryDict.GetWhereClause | onadata/apps/viewer/parsed_instance_tools.py:135-179 | The emitted SQL of a dictionary query; the caller's dictionary loses its "$or". |
| QueryWhere.GetWhereClauseOfString | onadata/apps/viewer/parsed_instance_tools.py:135-147 | A text that is not a JSON dictionary becomes a text search; numbers and lists are told apart. |
| QueryWhere.MergeDuplicateKeys | onadata/apps/viewer/parsed_instance_tools.py:104-116 | Merging the pairs of a JSON object is grouping them by key. |
| QueryWhere.MergeKeepsEveryValue | onadata/apps/viewer/parsed_instance_tools.py:104-116 | A key keeps its only value, or the list of all its values in order. |
| QueryMeaning.WhereEmits | onadata/apps/viewer/parsed_instance_tools.py:49-101 | Placeholders match parameters one for one exactly when every operator is known, and then the emitted clauses hold on a row exactly when each field's emitted condition does. |
| QueryMeaning.EmittedMeaning | onadata/apps/viewer/parsed_instance_tools.py:148-179 | With "$or": the WHERE holds exactly when all field conditions and some alternative's emitted condition do, and placeholders match parameters. |
| QueryExact.QueryMeaningExactly | onadata/apps/viewer/parsed_instance_tools.py:49-101 | With one meaning per entry wherever it stands (null: missing, a list: any item, a dictionary: its operators, any other value: its stored text): the clauses of a query without "$or" match their parameters and mean the query on every row if and only if it has only known operators, no list, no null on a table column, and str() of each value is its stored text. |
| QueryExact.MemberMeaningExactly | onadata/apps/viewer/parsed_instance_tools.py:148-173 | With the same meaning: the clauses of an alternative mean all its conditions on every row if and only if it is one JSON field with null, a text or texts, or good conditions on table columns only, or one of the cases that ask for nothing. |
| QueryExact.GoodQueryMeans | onadata/apps/viewer/parsed_instance_tools.py:135-179 | The whole query, with parameters bound left to right: when its fields and each alternative are good, all field conditions and at least one alternative. |
| QueryExact.GoodAlternativeExactly | onadata/apps/viewer/parsed_instance_tools.py:135-179 | Every query that offers an alternative beside good parts is emitted right, on every row, if and only if that alternative is good. |
| QueryExact.WrongAlternativeHidden | onadata/apps/viewer/parsed_instance_tools.py:148-173 | Beside parts that are not good, an alternative that is not good can go unnoticed: a query that is right all the same. |
| QueryExact.OperatorIsDropped | onadata/apps/viewer/parsed_instance_tools.py:170-173 | The input {"$or": [{"age": {"$gt": 5}}]}: the operator is dropped and the dictionary itself compared. |
| QueryExact.NullIsCompared | onadata/apps/viewer/parsed_instance_tools.py:90-97 | The input {"_last_edited": null}: the column is compared with the text of null. |
| QueryExact.BooleanIsCompared | onadata/apps/viewer/parsed_instance_tools.py:97-99 | The input {"_edited": true}: the field is compared with "True", while the stored text is "true". |
| QueryExact.OperatorsAreAsked | onadata/apps/viewer/parsed_instance_tools.py:26 | Each query operator is emitted as the SQL operator of the comparison it asks for; no other operator is known. |
| QueryExact.ColumnsArePlaces | onadata/apps/viewer/parsed_instance_tools.py:18-25 | A key is emitted as a table column exactly when the submission keeps it there, and as that column; which places hold dates. |
| QueryValues.FieldsFind | onadata/apps/viewer/parsed_instance_tools.py:49-101 | On submissions whose values have an order: the SQL of good fields finds exactly those whose values are greater, not less, less, not greater, equal or alike, as the query asks. |
| QueryValues.QueryFinds | onadata/apps/viewer/parsed_instance_tools.py:135-179 | The same with "$or": all field conditions and at least one alternative, on values. |
| QueryValues.RangeFinds | onadata/apps/viewer/parsed_instance_tools.py:61-80 | {key: {"$gt": low, "$lte": high}} finds exactly the values between. |
| QueryFaults.WhereFaultsExactly | onadata/apps/viewer/parsed_instance_tools.py:67-80 | A query without "$or" is refused if and only if a date is compared with what is no date; the first such comparison decides how. |
| QueryFaults.OrFaultsExactly | onadata/apps/viewer/parsed_instance_tools.py:148-179 | The first bad alternative decides: one that is no dictionary makes it a text search for the other entries, a dictionary with a bad date is the query's fault. |
| QueryFaults.StringAnswers | onadata/apps/viewer/parsed_instance_tools.py:135-147 | What a query string finds on every row, or how it fails: empty, no JSON, a list, a dictionary, another value. |
| QuerySql.EmittedIsSqlExactly | onadata/apps/viewer/parsed_instance_tools.py:135-179 | For every accepted query the clauses are SQL, without empty parentheses, if and only if it is a text search, has no "$or", or its alternatives emit some clause and every one with a table column has a condition. |
| QuerySql.SameAnswerAgainExactly | onadata/apps/viewer/parsed_instance_tools.py:148-150 | What the caller's dictionary gives when it is compiled again is the same if and only if it had no "$or", or its fields fail and the alternatives do not fail differently before them. |
| QuerySql.AskTwice | onadata/apps/viewer/parsed_instance_tools.py:135-179 | Two calls with one dictionary: with "$or", an accepted first call is never answered the same way again. |
| SheetNames.GenerateUniqueSheetName | onadata/apps/viewer/xls_writer.py:136-151 | The loop ends whenever the limit leaves room for counters, with the first candidate no sheet has, no longer than the limit. |
| SheetNames.CandidatesDiffer | onadata/apps/viewer/xls_writer.py:136-151 | Candidates whose counters have equally many digits differ. |
| SheetNames.CounterBound | onadata/apps/viewer/xls_writer.py:136-151 | Pigeonhole: if all candidates so far exist, the counter is still below 10^d for any d with more d-digit counters than sheets. |
| SheetNames.FirstCandidate | onadata/apps/viewer/xls_writer.py:136-151 | The name is determined by the existing sheets, keeps to the limit and needs few digits. |
| XlsLaws.NewNameExactly | onadata/apps/viewer/xls_writer.py:136-151 | A new sheet has the first free one of the names tried: the requested name cut to 30 characters, then each time as much of the name before as fits with the counter 1, 2, ... |
| XlsLaws.RowExactly | onadata/apps/viewer/xls_writer.py:56-66 | Cell by cell: the row's missing columns, once each and in order, headers on top; the row's value or "n/a" in every column; every other cell and sheet as before. |
| XlsLaws.RowsGoToLastAdded | onadata/apps/viewer/xls_writer.py:68-76 | In every run a table's rows go to the sheet last added for its name, or to the sheet of that very name. |
| XlsLaws.FixedKeepsOthers | onadata/apps/viewer/xls_writer.py:78-85 | Making a row global changes its positions only. |
| XlsWriter.Writer.AddSheet | onadata/apps/viewer/xls_writer.py:42-46 | A fresh sheet under a free name within the limit; no sheet or cell is replaced. |
| XlsWriter.Writer.AddColumn | onadata/apps/viewer/xls_writer.py:48-54 | A header cell that was free, and the column at the end. |
| XlsWriter.Writer.AddRow | onadata/apps/viewer/xls_writer.py:56-66 | A row of free cells under the columns, missing columns added first, "n/a" for missing values, and the sheet's counter one further. |
| XlsWriter.Writer.FixIndices | onadata/apps/viewer/xls_writer.py:78-85 | Every row's positions, shifted by the counters kept under the requested names. |
| XlsWriter.Writer.AddObs | onadata/apps/viewer/xls_writer.py:68-76 | An observation's tables in order, with the shifted positions; earlier cells stay. |
| XlsWriter.RunKeeps | onadata/apps/viewer/xls_writer.py:34-76 | Over every run after a reset, no cell is written twice and no sheet is replaced. |
| XlsWriter.TablesCounted | onadata/apps/viewer/xls_writer.py:56-76 | A sheet's counter goes up by exactly the rows written to it, whatever name was asked for. |
| XlsWriter.TablesWritten | onadata/apps/viewer/xls_writer.py:56-76 | Every value of every row stands in the row of its sheet computed from the counters. |
| XlsWriter.StoredIndicesWritten | onadata/apps/viewer/xls_writer.py:68-85 | The shifted positions of a row stand in the row of the generated sheet that the counters give. |
| XlsWriter.RunIndicesExactly | onadata/apps/viewer/xls_writer.py:34-85 | In every run after a reset, with distinct sheets per observation, a table's stored "_index" is the row number of each of its rows if and only if its name was not changed or as many rows were written to the sheet of the requested name as to its own. |
| XlsWriter.RunParentExactly | onadata/apps/viewer/xls_writer.py:34-85 | In every such run a stored "_parent_index" is the row number of the parent under the same condition on the parent's table. |
| XlsWriter.RenamedIndicesExactly | onadata/apps/viewer/xls_writer.py:73-85 | When no sheet has the requested name, the indices are right if and only if the name was not changed or the sheet had no rows yet. |
| XlsWriter.AllIndicesExactly | onadata/apps/viewer/xls_writer.py:34-85 | All indices stored over a whole run are right if and only if this holds for each table that brings rows. |
| XlsWriter.LongNamesDrift | onadata/apps/viewer/xls_writer.py:73-85 | For every name of more than 30 characters, the run of two observations with a row each: the first is stored with the right index, the second with a wrong one. |
| XlsWriter.LongNamesRun | onadata/apps/viewer/xls_writer.py:34-76 | There is such a run for every such name. |
| SmsForm.CheckCompatibility | onadata/apps/sms_support/tools.py:233-325 | Accepts exactly the compatible forms; a reported blocker is really there; the check crashes only for a group without questions. |
| SmsForm.OptionsDistinct | onadata/apps/sms_support/tools.py:269-292 | As many options as choices means that no option is missing or used twice. |
| SmsParser.ParseSmsText | onadata/apps/sms_support/parser.py:53-262 | The parsed answers and notes, or the error, of every text: groups split at the separator, answers taken by position, last ones with spaces. |
| SmsAnswers.AnyTextParses | onadata/apps/sms_support/parser.py:53-262 | For every text: it is parsed if and only if each part has two words and every question asked of the sender in a group gone into finds its words and a value of its kind, required ones not empty. |
| SmsAnswers.AnyTextAnswers | onadata/apps/sms_support/parser.py:196-262 | For every parsed text: under a group's and a question's name stands the value of the last such question of the last such group, and nothing else. |
| SmsAnswers.AnyTextNotes | onadata/apps/sms_support/parser.py:226-229 | The notes are the captions of the unconstrained notes of the groups gone into, each once and in order. |
| SmsAnswers.AnyTextFaults | onadata/apps/sms_support/parser.py:70-74 | Which fault a refused text has: a part without two words, or that of the first question without a value. |
| SmsAnswers.CompatibleExactly | onadata/apps/sms_support/tools.py:233-325 | A form passes the check if and only if questions sit in groups with ids, options are given and distinct, only the final question (but for one note) has answers of several words, and the separator is not within the media alphabet. |
| SmsRoundTrip.GroupRoundTripExactly | onadata/apps/sms_support/parser.py:205-255 | Every fitting set of answers comes back question by question if and only if no skipped question precedes an answered one, disallowed media before a question that is not the last excepted. |
| SmsSending.HandedExactly | onadata/apps/sms_support/parser.py:70-74 | Some SMS hands a text to a question if and only if the text is free of the separator and is one word - for the last question of its group, words with single spaces. |
| SmsSending.DateSentExactly | onadata/apps/sms_support/parser.py:61-68 | A date or datetime that a question before the last would take can be sent if and only if it is free of the separator and the format the parser reads it by ("sms_date_format" for both) is one word. |
| SmsSending.DatetimeNeverSent | onadata/apps/sms_support/tools.py:241-248 | A form that passes the check, which tests "sms_datetime_format", and no datetime its first question would take can be sent. |
| SmsSending.OptionSentExactly | onadata/apps/sms_support/tools.py:269-309 | In a form that passes the check, every option of a select-one is read as its own choice, and it can be sent if and only if it is free of the separator and one word - for the last question, words with single spaces. |
| SmsSending.PickedExactly | onadata/apps/sms_support/parser.py:128-135 | In a form that passes the check, a choice of a select-all can be picked if and only if its option is a word free of the separator. |
| SmsSending.ChoicesSent | onadata/apps/sms_support/parser.py:128-135 | Such choices can be sent together in any order, and are read as exactly these choices. |
| SmsSending.OptionNeverSent | onadata/apps/sms_support/tools.py:269-309 | A form that passes the check, and an option that would be read as its choice but cannot be sent. |
| SmsRoundTrip.ParsesExactly | onadata/apps/sms_support/parser.py:188-262 | Parsing printed answers, one word each before the last question, succeeds if and only if every group is accepted: in a group that was filled in, the type of each answered question takes its answer, and a "meta" group that was not asks nothing. |
| SmsRoundTrip.AnswersComeBack | onadata/apps/sms_support/parser.py:53-262 | Then the result holds, under each group's and question's name, the value of that question's own answer (a meta question its own value), nothing under any other names, and the notes of the groups in order. |
| SmsRoundTrip.EachAnswerComesBack | onadata/apps/sms_support/parser.py:196-262 | Question by question: what is reported under a question's names is the value its type gives its printed answer. |
| SmsRoundTrip.OrderIrrelevant | onadata/apps/sms_support/parser.py:70-74 | The order of the groups in the text does not matter. |
| SmsRoundTrip.TextsComeBack | onadata/apps/sms_support/parser.py:196-262 | Free texts, required ones not empty, need no further condition: they are parsed, and each comes back as it was sent. |
| StreamXml.TextStream.Write | onadata/libs/renderers/renderers.py:328-334 | Character by character: the text stands at the position, what was before and after it stays, NULs fill a gap; at the end the text is appended. |
| StreamXml.RewindIsNeededExactly | onadata/libs/renderers/renderers.py:328-334 | Truncated but not rewound, the buffer would pad the next text with as many NULs as were taken, unless nothing was. |
| StreamXml.PopXmlAttributes | onadata/libs/renderers/renderers.py:94-106 | The entries without and with "@"; the latter by their names without "@". |
| StreamXml.ToXml | onadata/libs/renderers/renderers.py:521-553 | The text of the value's elements is appended, and it succeeds exactly for the values that have such elements (both renderers' versions). |
| StreamXml.DocumentReadsBack | onadata/libs/renderers/renderers.py:501-519 | A document's tokens are well nested, and reading them gives the root element with exactly its items in order. |
| StreamMarks.ForestMarks | onadata/libs/renderers/renderers.py:521-553 | The elements of a value have exactly its texts, nulls left out, under the keys around them and in order, and open with its attributes (both renderers' versions). |
| StreamMarks.RenderedHolds | onadata/libs/renderers/renderers.py:501-519 | Reading a rendered document gives the root and in it exactly what the items hold. |
| StreamMarks.StreamHolds | onadata/libs/renderers/renderers.py:456-499 | Reading a streamed document: the same, with each item's "@" entries as its attributes. |
| StreamText.TextReadsBack | onadata/libs/renderers/renderers.py:521-553 | The printed text reads back as its tokens: names, attributes and texts unescaped. |
| StreamText.DocumentTextReadsBack | onadata/libs/renderers/renderers.py:501-519 | The text of a document reads back as the declaration and the tokens of its root element. |
| StreamText.InstanceStreamReadsBack | onadata/libs/renderers/renderers.py:456-499 | The chunks of a stream of submissions, put together, are the declaration's line and a text that reads back as the root element with the server's time and the items' elements. |
| StreamText.FormStreamReadsBack | onadata/libs/renderers/renderers.py:336-378 | The same for form lists and manifests, with the namespace. |
| StreamAccepts.AcceptedExactly | onadata/libs/renderers/renderers.py:521-553 | A value is accepted if and only if everything in it whose "@" entries are taken out is a dictionary with attributes that are texts. |
| StreamAccepts.StrippedExactly | onadata/libs/renderers/renderers.py:94-106 | An attribute's name is the key without its "@"s, wherever they stand. |
| StreamRender.StreamRenderer.CurrentBufferData | onadata/libs/renderers/renderers.py:328-334 | The buffer's text is handed out once and the buffer is empty and rewound. |
| StreamRender.StreamRenderer.StreamItems | onadata/libs/renderers/renderers.py:352-371 | The look-ahead loop hands out one chunk per item, each once and in order, up to the first item that is not truthy or cannot be rendered. |
| StreamRender.StreamRenderer.StreamInstances | onadata/libs/renderers/renderers.py:456-499 | The chunks of a stream of submissions, for every input. |
| StreamRender.StreamRenderer.StreamForms | onadata/libs/renderers/renderers.py:336-378 | The chunks of a stream of forms or media files, for every input. |
| StreamRender.Render | onadata/libs/renderers/renderers.py:501-519 | The whole-document render. |
| StreamRender.InstanceChunksMakeDocument | onadata/libs/renderers/renderers.py:456-499 | The chunks of a finished stream, put together, are the document of the streamed items. |
| StreamRender.FormChunksMakeDocument | onadata/libs/renderers/renderers.py:336-378 | The same for forms and media files. |
| StreamRender.StreamedIsRenderedExactly | onadata/libs/renderers/renderers.py:456-519 | The streamed text is the whole-document render with the same server time if and only if every item is truthy. |
| StreamRender.StreamAndRender | onadata/libs/renderers/renderers.py:456-519 | Streaming and rendering the same submissions: what can be rendered can be streamed, and then the chunks make up the rendered text if and only if every item is truthy. |
| StreamRender.FormItemRenderedExactly | onadata/libs/renderers/renderers.py:302-322 | For forms, an item is streamed as it is rendered at once if and only if none of its keys starts with "@". |
| StreamRender.FormsRenderedExactly | onadata/libs/renderers/renderers.py:302-378 | A whole form list or manifest: the streamed text is the rendered text if and only if every item is truthy and has no key that starts with "@". |
| StreamRender.PopLosesNothing | onadata/libs/renderers/renderers.py:94-106 | Popping attributes keeps the other entries in order, and each attribute's last value. |
| ManifestCache.Cache.Add | onadata/libs/renderers/renderers.py:417-426 | The lock is obtained exactly when it is free. |
| ManifestCache.ManifestRenderer.AcquireLock | onadata/libs/renderers/renderers.py:417-426 | A request with a cache key may update the cache exactly when the lock was free, and the lock is then held; without a key nothing happens. |
| ManifestCache.ManifestRenderer.CurrentBufferData | onadata/libs/renderers/renderers.py:395-415 | What a chunk does to the cached text and the lock; without the lock, or for an empty chunk, nothing. |
| ManifestCache.ChunkAtOnce | onadata/libs/renderers/renderers.py:395-415 | The separate cache steps of a chunk, uninterrupted, do what the method does. |
| ManifestCache.RunKeepsGood | onadata/libs/renderers/renderers.py:395-426 | In every interleaving without expiry of the lock at most one request holds it, and while nothing is cleared the cached text is the text at acquisition followed by the holder's chunks so far. |
| ManifestCache.CompleteAtReleaseExactly | onadata/libs/renderers/renderers.py:398-415 | At release the cached text is the whole manifest if and only if no text was cached at acquisition. |
| ManifestCache.AnswersAreManifests | onadata/apps/api/viewsets/xform_list_viewset.py:256-277 | If the lock is only obtained while no text is cached, every answer from the cache is a whole manifest. |
| ManifestCache.ManifestTwiceOver | onadata/apps/api/viewsets/xform_list_viewset.py:260-277 | A concrete run: the lookup and the lock are apart, so a second request can add its manifest to a finished one, and a third is answered with both. |
| ManifestCache.ExpiredLockMixesManifests | onadata/libs/renderers/renderers.py:398-426 | A concrete run: the lock expires under a request, a second one finishes, and a third is answered with a text that begins with both. |
| ManifestStreams.StreamsAreStreamable | onadata/libs/renderers/renderers.py:336-378 | Every stream of a manifest has the shape the cache relies on: each chunk starts a tag and only the closing one ends with the closing tag. |
| ManifestStreams.CachedIsDocument | onadata/libs/renderers/renderers.py:395-415 | The chunks put together in the cache are the rendered document without the line break after its declaration. |
| Floip.ParseResponses | onadata/libs/serializers/floip_serializer.py:55-85 | The submissions of any list of rows: one per maximal run of a session, described by runs and not by the loop. |
| Floip.RowsTaken | onadata/libs/serializers/floip_serializer.py:63-66 | Exactly the rows of fewer than six columns are passed over. |
| Floip.RunsAreMaximal | onadata/libs/serializers/floip_serializer.py:67-83 | The runs are the complete rows, in order, cut exactly where the session changes. |
| Floip.SubmissionPerRun | onadata/libs/serializers/floip_serializer.py:67-85 | One submission per run in order; one empty submission without complete rows. |
| Floip.LastAnswerWins | onadata/libs/serializers/floip_serializer.py:83 | A question's answer is that of its last row in the run. |
| Floip.AnsweredQuestions | onadata/libs/serializers/floip_serializer.py:83 | A submission answers exactly the questions of its run. |
| Floip.MetaExactly | onadata/libs/serializers/floip_serializer.py:72-77 | Metadata names the run's own session; it is missing exactly from a last run of one row that is not the only run, and its contact is another session's exactly when a later run of one row is followed by another. |
| FloipRows.PairingIsBijective | onadata/libs/renderers/renderers.py:51-57 | Pairing is a bijection on the natural numbers: it has an inverse on both sides. |
| FloipRows.FloatPairingIsExact | onadata/libs/renderers/renderers.py:51-57 | In double precision the result is exact as long as it does not exceed 2^53. |
| FloipRows.FloatPairingCollides | onadata/libs/renderers/renderers.py:51-57 | Beyond 2^53 two different pairs get one identifier: a concrete pair of submissions. |
| FloipRows.FloatPairingDistinctExactly | onadata/libs/renderers/renderers.py:51-57 | The identifiers of all pairs numbered up to a bound differ if and only if the bound is at most 2^53. |
| FloipRows.FloipList | onadata/libs/renderers/renderers.py:60-91 | The rows of a list of records. |
| FloipRows.RowsExactly | onadata/libs/renderers/renderers.py:60-91 | There is one row for each entry that is a question, in order, with its identifier, contact, session, key and response. |
| FloipRows.RowIdsDistinct | onadata/libs/renderers/renderers.py:60-91 | Records with distinct ids give rows with pairwise distinct identifiers, as long as these do not exceed 2^53. |
| MergedForm.GetElements | onadata/libs/serializers/merged_xform_serializer.py:33-51 | The recursion with narrowed path lists keeps exactly what the recursion without narrowing keeps. |
| MergedForm.NarrowingIsIrrelevant | onadata/libs/serializers/merged_xform_serializer.py:43-47 | Paths that do not start with the group's path never matter below it. |
| MergedForm.QuestionsKeptExactly | onadata/libs/serializers/merged_xform_serializer.py:33-51 | In the first form's order, exactly the questions stay whose own path and whose groups' paths are all common; a group stays exactly when such a question is below it. |
| MergedForm.OneTypePerPath | onadata/libs/serializers/merged_xform_serializer.py:33-51 | Names that differ among siblings and are XML names give every path one field. |
| MergedForm.MergedFieldsAreCommon | onadata/libs/serializers/merged_xform_serializer.py:69-79 | Every element of a merged form, at any depth, has a path and a type found in all merged forms. |
| MergedForm.GetMergedXFormSurvey | onadata/libs/serializers/merged_xform_serializer.py:59-109 | The merged form or the error, for every list of forms. |
| MergedForm.MergedElement | onadata/libs/serializers/merged_xform_serializer.py:84-104 | Top-level elements lose their binds, and a select offers exactly the options some form's element of that name offers. |
| MergedForm.NestedSelectsKeepOptions | onadata/libs/serializers/merged_xform_serializer.py:33-104 | Below the top level options are not merged: a select in a group of a merged form is the first form's, with its options. |
| MergedForm.MergesExactly | onadata/libs/serializers/merged_xform_serializer.py:66-107 | Merging is refused exactly for fewer than two forms or when nothing but "meta" is common at the top. |
| MergedLaws.CommonExactly | onadata/libs/serializers/merged_xform_serializer.py:69-77 | A path is common, groups' paths included, if and only if it leads to an element of one type in every form. |
| MergedLaws.MergedAsksExactly | onadata/libs/serializers/merged_xform_serializer.py:33-79 | A merged form asks exactly the first form's questions all of whose paths, from the top down, are shared by every form. |
| MergedLaws.OptionsExactly | onadata/libs/serializers/merged_xform_serializer.py:92-103 | A select at the top offers exactly what its namesakes at the top of the forms offer. |
| MergedLaws.ListsExactly | onadata/libs/serializers/merged_xform_serializer.py:104 | A list of options is that of the last select at the top that uses it, else the first form's. |
| MergedLaws.RefusedExactly | onadata/libs/serializers/merged_xform_serializer.py:66-107 | Which refusal: fewer than two forms, or no question but those of "meta" shared all the way. |
| Permissions.PermissionStore.RemoveObjPermissions | onadata/libs/permissions.py:103-106 | The user's permissions on the object are gone; everything else stays. |
| Permissions.PermissionStore.Add | onadata/libs/permissions.py:115-122 | The user's permissions on the object are exactly the role's. |
| Permissions.AssignedExactly | onadata/libs/permissions.py:103-122 | After such a change the user has exactly these permissions on the object, and every other user and object keeps theirs. |
| Permissions.GetRole | onadata/libs/permissions.py:516-523 | The highest role whose permissions are all there, or none. |
| Permissions.Highest | onadata/libs/permissions.py:516-523 | No higher role's permissions are all there. |
| Permissions.FormRoleReadsBack | onadata/libs/permissions.py:124-137 | On forms every role can be read back from the permissions it grants. |
| Permissions.ProjectRoleReadsBackExactly | onadata/libs/permissions.py:479-523 | On projects every role reads back as itself except dataentry-only (as dataentry) and editor-no-download (as editor-minor). |
| Permissions.OrgRoleReadsBack | onadata/libs/permissions.py:526-535 | On organizations only owners, managers and other members can be told apart. |
| Permissions.UseExactly | onadata/libs/permissions.py:152-456 | Permission by permission, which roles have it on forms and on projects. |
| Permissions.OrganizationUseExactly | onadata/libs/permissions.py:152-456 | The same on organizations. |
| Permissions.OtherUseExactly | onadata/libs/permissions.py:152-456 | The same on profiles, entity lists and merged forms. |
| ShareProject.Share.Save | onadata/libs/models/share_project.py:75-132 | After a share or a removal the user's permissions on each named object are the assigned ones, and nothing else changed for anyone; an unknown role changes nothing. |
| ShareProject.SharedExactly | onadata/libs/models/share_project.py:84-115 | A share reaches exactly the project, its forms, merged forms, matching data views' forms and entity lists, with the role's permissions for each class; only a form that prescribes roles and has no matching data view gets another role. |
| ShareProject.SharedPlainly | onadata/libs/models/share_project.py:84-115 | Without prescribed roles, or for the roles that ignore them, the role's permissions everywhere. |
| ShareProject.FormRoleExactly | onadata/libs/utils/xform_utils.py:156-209 | The role a prescribing form gives, by what the shared role may do: edit but not delete, submit only, export only, or anything else. |
| ShareProject.RemovedExactly | onadata/libs/models/share_project.py:32-57 | A removal leaves the user nothing on all it reaches, and it reaches all that a share reaches. |
| ShareProject.RemoveUndoesShare | onadata/libs/models/share_project.py:75-132 | Sharing and then removing leaves the user nothing there, and everyone else what they had. |
| OrgMembers.Organization.AddUserToTeam | onadata/apps/api/models/organization_profile.py:94-113 | Team membership and team permissions after joining. |
| OrgMembers.Organization.RemoveUserFromTeam | onadata/apps/api/tools.py:226-242 | Team membership and team permissions after leaving. |
| OrgMembers.Organization.RemoveUserFromOrganization | onadata/apps/api/tools.py:187-207 | Both teams are left; permissions go when they make up a role. |
| OrgMembers.Organization.AddUserToOrganization | onadata/apps/api/tools.py:245-271 | Teams and permissions after joining without a role, as owner, or with another role. |
| OrgMembers.Organization.Validate | onadata/libs/serializers/organization_member_serializer.py:46-95 | Refuses organization accounts and the last owner giving up the role. |
| OrgMembers.Organization.Submit | onadata/libs/serializers/organization_member_serializer.py:79-114 | One validated request. |
| OrgMembers.AddedExactly | onadata/apps/api/tools.py:245-271 | The new member's permissions are exactly the role's; nobody else's change. |
| OrgMembers.RemovedExactly | onadata/apps/api/tools.py:187-207 | The removed member's permissions go when they make up a role; nobody else's change. |
| OrgMembers.OwnershipAfter | onadata/libs/serializers/organization_member_serializer.py:79-114 | After an allowed request a user is an owner, and in the owners' team, exactly when the request made or left them one. |
| OrgMembers.RunKeepsOwner | onadata/libs/serializers/organization_member_serializer.py:79-114 | Every run of requests keeps at least one owner, and keeps the owners' team the users with the owner role. |
| OrgMembers.CheckedApartExactly | onadata/libs/serializers/organization_member_serializer.py:79-114 | Two requests that are both validated before either is carried out leave no owner if and only if each owner is given up by one of them and neither makes an owner. |
| OrgMembers.BothOwnersRemoved | onadata/libs/serializers/organization_member_serializer.py:79-114 | Two removals by which the last two owners go. |
| OrgMembers.RemovalLeavesNothing | onadata/apps/api/tools.py:187-207 | In every run a removed user is in neither team and has no permission on the organization or its profile. |
| OrgMembers.OwnersRecognisedExactly | onadata/apps/api/tools.py:236-242 | The owners' team is recognised by its name if and only if the organization's name does not start with "Owners". |
| OrgMembers.NonOwnerViewsTeamExactly | onadata/apps/api/tools.py:256-271 | A member added with another role than owner keeps the permission to view the members' team only where the owners' team is not recognised. |
| OrgLaws.TeamPermsExactly | onadata/apps/api/tools.py:187-271 | The permissions on both teams after joining without a role, as owner, with another role, and after leaving. |
| OrgLaws.OwnersExactly | onadata/apps/api/tools.py:187-271 | The owners are those in the owners' team with the owner's permission, the organization's own account apart. |
| OrgLaws.RefusedExactly | onadata/libs/serializers/organization_member_serializer.py:46-95 | A request is refused if and only if it names an organization's account, or the only owner without the owner's role. |

## Left out

- Kms.KeyManager.RotateKey: one clock reading stands for all of an operation's readings; e-mail, audit fields, cache invalidation and survey regeneration are not modelled; a query's result is taken as fresh, so stale objects in memory and row locks are not modelled.
- Kms.KeyManager.CreateKey: the KMS is a function that answers with a public key or not; key ids are positions in the order of creation; descriptions and key material are not modelled.
- KmsRuns.RunKeepsGood: the steps are those of the key operations; replacing the XLSForm of a managed form gives it a version without a key row, so the invariant is about runs without that step.
- KmsDecrypt.Submission.DecryptInstance: cryptography is a stream of decrypted files with an end; what saving a submission triggers (signals, JSON regeneration, media counting) is not modelled.
- XmlDict.XmlNodeToDict: XML text parsing, entities and attributes are not part of this model; it starts from the tree.
- XmlRepeats.DeclaredRepeatsAreLists: the names of the tree and of declared repeats are XML names, without "/".
- FlatIndexed.SameLeavesIndexed: names are taken to be XML names, without "[" and "/".
- QueryWhere.ParseWhere: how a database compares, casts and parses dates is left open as functions; SQL NULL counts as not true.
- QueryValues.FieldsFind: one way only, for fields that `QueryExact.QueryMeaningExactly` shows to be the ones with that meaning.
- QueryExact.GoodQueryMeans: one way only, because beside others an alternative that is emitted wrongly can go unnoticed (`QueryExact.WrongAlternativeHidden`); `QueryExact.GoodAlternativeExactly` is the equivalence over all queries that offer the alternative.
- QueryExact.QueryMeaningExactly: the texts that str() and the database give fractional numbers, lists and dictionaries are left open, except that str() of a list is not the stored text of a value in it.
- SQL text itself, sorting, fields and pagination of the viewer are not modelled; clauses are a syntax tree.
- XlsWriter.Writer.AddSheet: the spreadsheet library's own rules for names (case, characters) and sizes are not modelled; write_tables_to_workbook and sheets built from a data dictionary are left out as simple loops.
- SmsParser.ParseSmsText: number, geopoint and media casts and reading a date by a format are functions left open; the list of media files is not modelled; white space is recognised up to U+00A0.
- SmsRoundTrip.AnswersComeBack: words share no character with the separator (the same as not containing it when it is one character), and the separator has no space.
- SmsSending.DateSentExactly: formats whose values have spaces although the format has none, such as "%c", are excluded; separators with a space are, too.
- SmsForm.CheckCompatibility: only blockers, not the warnings and the HTML of the messages.
- StreamXml.ToXml: numbers and other scalars are their texts; tags are written as the XML generator writes them except that attributes keep their order and attribute quotes are always double; the generator's checks of characters are not modelled.
- StreamText.TextReadsBack: element and attribute names are taken to have no markup, and neighbouring texts read as one.
- StreamRender.StreamRenderer.StreamInstances: an exception ends the stream; which one is not modelled.
- ManifestCache.RunKeepsGood: expiry of the lock ends the guarantee and is excluded (`ManifestCache.ExpiredLockMixesManifests`); a failing cache server is not modelled.
- Floip.ParseResponses: rows hold texts, and the four positions are the default settings.
- FloipRows.FloipList: submission times and the empty response metadata are not modelled; responses are texts.
- MergedForm.MergedFieldsAreCommon: the first form's sibling names differ and are XML names, as publishing a form requires.
- MergedLaws.CommonExactly: all forms' names are such names; without them paths are ambiguous.
- MergedForm.GetMergedXFormSurvey: options of a merged select are a set, so their order by name is not modelled; a select always has options and a list name; building the survey from the merged dictionary is not modelled.
- ShareProject.Share.Save: the user exists; prescribed roles of a form are three known roles; caches and the notification of other services are not modelled.
- Permissions.GetRole: only direct permissions of users, not those of teams.
- OrgMembers.Organization.Submit: the user exists and is active; sharing the organization's projects with the member is a task queued for later and left out; invitations and e-mail are left out.
- Views, filters, routing, authentication, storage back ends, exports and the other serializers are plumbing with shallow branches.
