# ajfses admin backend, modelled in Dafny

This project models the request handlers of the ajfses admin backend: members, clients, gallery items,
inquiries and teams, with their create, read, update and delete endpoints; sign-in and password change;
the JWT middleware in front of the admin routes; and the reply helpers every handler ends with.

Each database table is a `Repository.Table<T>`, a class holding the rows as a map from serial id to
record and the next id to issue. The local disk is a `FileSystem.Disk`, a class holding a map from path
to file contents. Every failure the operating system or the database can report is an input to the
operation: a boolean, or a `CopyResult` for a copy that stops part-way.

The handlers become methods of one handler class per entity. Each method states its new table, disk and
reply in terms of the old ones. Where a handler does more than a guard chain, the method is proved
equal to a specification function. Lemmas then state what the source promises about those functions.

Most properties come in three groups:

- The merge rules of the update handlers.
- The image file names: `<id>_<name with spaces as _><ext>` for members and clients;
  `<id>_<sanitised title><ext>` and `..._v2<ext>` for gallery items; `<base>_backup<ext>` for backups.
- The backup, write, row update and restore sequence of UpdateMember and UpdateClient.

The remaining modules are support models:

- `Text`, `Numbers` and `Paths` model the parts of Go's `strings`, `strconv` and `path/filepath` that
  the handlers rely on.
- `Rfc3339` models the timestamp format of section 5.6 of RFC 3339. It reads timestamps as
  `time.Parse(time.RFC3339, ·)` does and writes them as `encoding/json` does.
- `Jwt` models GenerateJWT, ParseJWT and VerifyJWT over an abstract JWT library.

Some lemmas state sharp edges of the code as written:

- Gallery images are created in one directory but removed from another.
- Replacing a gallery image twice removes the image just written.
- A new image whose name equals the old image's backup name is deleted by the clean-up.

## Model

| member | source | states |
|---|---|---|
| Text.TrimSpace | backend/api/handlers/members.handler.go:44-52 | the result has no white space at either end, is no longer than the input, and is empty exactly when the input is all white space |
| Text.TrimSpaceInfix | backend/api/handlers/members.handler.go:44-52 | what TrimSpace keeps is a contiguous piece of the input with only white space before and after it |
| Text.TrimSpaceIdempotent | backend/api/handlers/teams.handler.go:40-44 | trimming an already trimmed value leaves it unchanged |
| Text.TrimSpaceUnique | backend/api/handlers/members.handler.go:49-52 | a piece with only white space around it and none at its own ends is exactly what TrimSpace keeps |
| Text.Replace | backend/api/handlers/members.handler.go:102 | ReplaceAll of one character keeps the length and swaps exactly the occurrences of that character |
| Text.Split | backend/api/handlers/members.handler.go:162-163 | strings.Split gives at least one piece, and no piece holds the separator |
| Text.JoinSplit | backend/api/handlers/members.handler.go:162-163 | joining the pieces with the separator gives the text back |
| Text.SplitJoin | backend/api/handlers/members.handler.go:162-163 | splitting a join of separator-free pieces gives those pieces back |
| Text.SplitCount | backend/api/handlers/members.handler.go:162-163 | a text with n separators splits into n + 1 pieces |
| Text.ToLowerAscii | backend/api/middlewares/auth.middleware.go:33 | lower-casing keeps the length and lowers each letter in place |
| Text.Utf8Len | backend/api/handlers/auth.handler.go:125 | Go's len on a string counts between one and four bytes per character |
| Numbers.ParseInt64 | backend/api/handlers/teams.handler.go:79 | an accepted text gives a value within the 64-bit range |
| Numbers.SignAndZerosIgnored | backend/api/handlers/members.handler.go:59 | a leading "+" or "0" does not change the result; digits alone are accepted up to 2^63 - 1, and after "-" up to 2^63, as their negation |
| Numbers.FormatInt | backend/api/handlers/members.handler.go:103 | %d prints a non-empty string of digits with at most a leading '-' |
| Numbers.DecimalDigits | backend/api/handlers/members.handler.go:103 | the digits printed for a natural number read back as that number |
| Numbers.ParseFormat | backend/api/handlers/gallery.handler.go:152 | every 64-bit id printed with %d parses back to itself |
| Numbers.FormatOfParsed | backend/api/handlers/teams.handler.go:79 | every text ParseInt accepts is what %d prints for its value, once a leading "+", leading zeros and a "-" before zero are dropped |
| Numbers.FormatInjective | backend/api/handlers/members.handler.go:103 | distinct integers print distinctly |
| Numbers.ParseBool | backend/api/handlers/members.handler.go:156-157 | true for exactly 1, t, T, TRUE, true and True; false for exactly 0, f, F, FALSE, false and False; an error otherwise |
| Numbers.Atoi | backend/api/handlers/members.handler.go:59 | Atoi refuses every text that is not an optional sign followed by decimal digits; an accepted value is in the 64-bit range and prints as its text does, once the sign and leading zeros are normalised |
| Numbers.AtoiValue | backend/api/handlers/gallery.handler.go:292 | when the error is dropped, Atoi yields the parsed value; the 64-bit bound on the sign's side when the value is out of range or the leading digits overflow before any junk; and 0 on any other syntax error |
| Numbers.AtoiOverflowBeforeJunk | backend/api/handlers/gallery.handler.go:292 | digits past 2^64 - 1 followed by a non-digit give the bound on the sign's side, not 0 |
| Numbers.AtoiJunkWithinRange | backend/api/handlers/gallery.handler.go:292 | digits within 2^64 - 1 followed by a non-digit give 0 |
| Paths.Join | backend/api/handlers/members.handler.go:113 | the directory, one '/', then the name; an empty name gives the directory |
| Paths.JoinInjective | backend/api/handlers/members.handler.go:113 | two non-empty names joined to one directory give one path only when they are equal |
| Paths.Ext | backend/api/handlers/members.handler.go:98 | the extension is a suffix of the path that starts with '.' and holds no other '.' and no '/' |
| Paths.ExtMissingMeansNoDot | backend/api/handlers/members.handler.go:98-101 | the extension is missing only when the final path element holds no '.', which is when the default ".jpg" is used |
| Paths.TrimSuffix | backend/api/handlers/members.handler.go:316 | a present suffix is cut off exactly, and an absent one leaves the text unchanged |
| Paths.ExtAppend | backend/api/handlers/members.handler.go:316-319 | text without '.' or '/' appended to a name extends its extension, or leaves a missing one missing |
| Paths.ExtOfSuffix | backend/api/handlers/members.handler.go:98-103 | a name ending in a '.'-led suffix with no further '.' or '/' has that suffix as its extension |
| Requests.QueryValue | backend/api/handlers/members.handler.go:144 | a query value is the key's value, or "" when the key is absent |
| Requests.Overwrite | backend/api/handlers/clients.handler.go:198-225 | the trimmed incoming value replaces the current one unless it is empty |
| Requests.OverwriteIdempotent | backend/api/handlers/clients.handler.go:198-225 | sending the same field twice gives what sending it once gave |
| Requests.OverwriteCannotClear | backend/api/handlers/teams.handler.go:143-146 | an update can never blank a non-empty field |
| ServerResponse.BadRequest | backend/internal/utils/server_response.go:52-61 | status 400, an error body, and the error's text as the message |
| ServerResponse.NotFound | backend/internal/utils/server_response.go:64-82 | status 404 with status "not_found"; an empty message becomes "Resource not found", so the message is never empty |
| ServerResponse.ServerError | backend/internal/utils/server_response.go:85-104 | status 500 with status "server_error"; a nil or empty error becomes "Internal server error" |
| ServerResponse.Unauthorized | backend/internal/utils/server_response.go:108-127 | status 401, an error body, and the error's text as the message |
| ServerResponse.ResponseHeaders | backend/internal/utils/server_response.go:33-49 | only the first caller header map is copied in; Content-Type is then forced to application/json; no other header appears |
| ServerResponse.ReadJSON | backend/internal/utils/server_response.go:12-30 | a body is accepted exactly when it fits in 1,048,576 bytes and holds one well-formed value; the size limit refuses the first value only when it, or the malformed text, ends beyond the limit, and otherwise a second value, malformed text or a body past the limit after the value gets the single-value error |
| FileSystem.Written | backend/api/handlers/members.handler.go:122-126 | a failed copy leaves a prefix of the upload in the file, and a complete copy leaves all of it |
| FileSystem.AfterRename | backend/api/handlers/members.handler.go:321 | a rename succeeds exactly when the source exists and the OS does not refuse; it then moves the contents to the destination and changes no other path |
| FileSystem.AfterRemove | backend/api/handlers/members.handler.go:466 | a remove succeeds exactly when the path exists and the OS does not refuse, and it then drops only that path |
| FileSystem.Disk.Rename | backend/api/handlers/members.handler.go:321 | the disk afterwards is AfterRename of the disk before |
| FileSystem.Disk.Remove | backend/api/handlers/members.handler.go:466 | the disk afterwards is AfterRemove of the disk before |
| FileSystem.Disk.Create | backend/api/handlers/members.handler.go:113-119 | os.Create leaves an empty file at the path, unless refused |
| FileSystem.Disk.Copy | backend/api/handlers/members.handler.go:122-126 | io.Copy leaves Written(data, result) in the file and reports success only for a complete copy |
| Repository.Table.Get | backend/internal/dbrepo/team.db.go:48-74 | a row is found exactly when its id is a key, and it is that key's row |
| Repository.Table.Create | backend/internal/dbrepo/team.db.go:23-45 | a successful insert stores the row under a fresh id, returns that id and advances the next id; a failed insert changes nothing |
| Repository.Table.Update | backend/internal/dbrepo/team.db.go:117-138 | an update replaces the row when the id exists; an unknown id is not an error |
| Repository.Table.Delete | backend/internal/dbrepo/team.db.go:141-158 | a delete removes exactly the row; zero affected rows is reported as a failure |
| Rfc3339.DaysIn | backend/internal/utils/utils.go:136 | every month has between 28 and 31 days |
| Rfc3339.Nanos | backend/internal/utils/utils.go:136 | the fraction's digits give fewer than 10^9 nanoseconds |
| Rfc3339.ParseZone | backend/internal/utils/utils.go:136 | a zone is accepted exactly when it is "Z" or a sign, two-digit hours up to 24, a colon and two-digit minutes up to 60, and it gives the signed offset in minutes |
| Rfc3339.Parse | backend/internal/utils/utils.go:136 | accepted text has the YYYY-MM-DDT date shape of section 5.6 of RFC 3339 and gives a normal time with a four-digit year |
| Rfc3339.HourLeadingZeroOptional | backend/internal/utils/utils.go:136 | the hour may be written with one digit: dropping the leading zero of a two-digit hour gives the same time |
| Rfc3339.CommaFraction | backend/internal/utils/utils.go:136 | a comma before the fraction reads the same as a full stop |
| Rfc3339.FractionDigits | backend/internal/utils/utils.go:34-35 | the fraction digits the JSON encoder writes read back as the same nanoseconds |
| Rfc3339.ZoneRoundTrip | backend/internal/utils/utils.go:34-35 | a written offset reads back as itself |
| Rfc3339.TailRoundTrip | backend/internal/utils/utils.go:34-35 | a written fraction and offset read back as themselves |
| Rfc3339.DateTimeFields | backend/internal/utils/utils.go:34-35 | the six numeric fields of a written date and time read back as written |
| Rfc3339.ParseOfParts | backend/internal/utils/utils.go:136 | a text that starts with a time's date and clock, and whose tail reads back as its fraction and offset, parses to that time |
| Rfc3339.ParseFormat | backend/internal/utils/utils.go:132-149 | every time the JSON encoder writes into a token is parsed back unchanged by VerifyJWT |
| Rfc3339.Format | backend/internal/utils/utils.go:34-35 | a time value is written in 20 to 35 characters with 'T' between date and clock, and ends in 'Z' exactly when its offset is zero |
| Jwt.Truncate | backend/internal/utils/utils.go:153 | int64 of a float64 drops the fraction toward zero |
| Jwt.UnixSeconds | backend/internal/utils/utils.go:32-33 | Unix() rounds the time down to whole seconds |
| Jwt.GenerateJWT | backend/internal/utils/utils.go:23-40 | an algorithm the library does not register panics; otherwise a time outside years 0-9999 or offsets within ±23:59 fails to encode, created_at first; then "none" and the key-pair methods fail with their error categories; exactly the HMAC methods sign, with the configured secret and the claims of IssuedClaims |
| Jwt.MarshalError | backend/internal/utils/utils.go:34-35 | the year message is given exactly when the year is out of range, and the zone message exactly when only the offset is |
| Jwt.IssuedClaims | backend/internal/utils/utils.go:25-36 | the claim set has no nbf |
| Jwt.LibraryCheck | backend/internal/utils/utils.go:76-90 | a token is accepted exactly when it is signed with the configured method, that method is HMAC (the key function hands over the secret as bytes), the key is the secret, and exp and nbf are numbers where present, a set exp after now and a set nbf not after now, in whole seconds; an unregistered or different algorithm is unverifiable, another method or key an invalid signature; "token is expired" is reported exactly for a well-signed token whose set exp is not after now |
| Jwt.WellFormed | backend/internal/utils/utils.go:73-168 | an accepted token carries the configured HMAC method and secret, valid dates and a numeric exp that now has not reached, or an exp of 0 at a time not after 0 |
| Jwt.VerifyToken | backend/internal/utils/utils.go:73-168 | a token is accepted exactly when it is WellFormed, and then with its claims copied and both times parsed; an accepted token carries the configured issuer and audience, an exp not before now, and two times within years 0-9999 |
| Jwt.VerifyJWT | backend/internal/utils/utils.go:76-90 | a token that cannot be decoded is malformed; a decoded one is judged by VerifyToken |
| Jwt.ParseToken | backend/internal/utils/utils.go:43-69 | ParseJWT accepts exactly what the library accepts with every claim typed, panics exactly on an accepted token with a mistyped claim, and leaves both times unset |
| Jwt.WrongAlgorithmRefused | backend/internal/utils/utils.go:76-89 | both checks refuse a token signed with another algorithm, each with its own message |
| Jwt.OnlyHmacConfigAccepts | backend/internal/utils/utils.go:43-90 | under a configured method other than HMAC both checks refuse every token |
| Jwt.ChecksInOrder | backend/internal/utils/utils.go:104-118 | a wrong issuer is reported before the audience, the audience before the expiry, and a missing or non-numeric exp, exactly then, before anything after it |
| Jwt.CreatedAtChecksInOrder | backend/internal/utils/utils.go:126-139 | after the expiry, a missing id, then a missing or non-string created_at, then an unparseable one are each reported exactly then, with their own messages |
| Jwt.UpdatedAtChecksInOrder | backend/internal/utils/utils.go:142-162 | then a missing or non-string updated_at and an unparseable one are each reported exactly then; past them the token panics exactly when another claim has the wrong type |
| Jwt.OwnExpiryCheckOnlyForZero | backend/internal/utils/utils.go:119-121 | past the library, the handler's own "token has expired" check fires exactly for an exp of 0, which the library ignores, and a now after the epoch |
| Jwt.LateTokenRefused | backend/internal/utils/utils.go:85-88 | a token signed with the configured HMAC method and secret whose set exp, in whole seconds, is not after now is refused as expired, whatever its nbf |
| Jwt.EarlyTokenRefused | backend/internal/utils/utils.go:85-90 | a token signed with the configured HMAC method and secret, unexpired, whose set nbf is after now in whole seconds, is refused with the invalid-claims error |
| Jwt.ZeroDateIsAbsent | backend/internal/utils/utils.go:76-90 | an exp or nbf of 0 is judged as if the claim were absent |
| Jwt.IssuedIdentityClaims | backend/internal/utils/utils.go:25-31 | an issued token carries the user's id, name, username and role, and the configured issuer and audience |
| Jwt.IssuedTimeClaims | backend/internal/utils/utils.go:32-35 | an issued token's exp is now plus the expiry and its iat is now, both in whole seconds; its times are in RFC 3339 form |
| Jwt.IssuedPassesLibrary | backend/internal/utils/utils.go:76-90 | the library accepts a token issued with an HMAC method at any moment before its exp |
| Jwt.IssuedTokenVerifies | backend/internal/utils/utils.go:73-168 | with an HMAC method, GenerateJWT signs, and its token passes VerifyJWT before it expires, giving back the user's data and both times unchanged |
| Jwt.ParseAgreesWithVerify | backend/internal/utils/utils.go:43-69 | ParseJWT accepts every token VerifyJWT accepts, with the same claims except the two times, which it leaves unset |
| AuthMiddleware.AuthJWT | backend/api/middlewares/auth.middleware.go:19-65 | a refusal is a 401; a request passed on carries Admin claims; an empty header is refused as missing |
| AuthMiddleware.SpacesOtherThanOneRefused | backend/api/middlewares/auth.middleware.go:32-37 | a header without exactly one space is refused for its format, whatever the token |
| AuthMiddleware.BearerHeader | backend/api/middlewares/auth.middleware.go:32-54 | for "<scheme> <token>", the request passes iff the scheme lower-cases to "bearer" and the token verifies with the Admin role; the gate also maps rejection to 401 and a panic to an aborted request |
| AuthMiddleware.PassedHeaderShape | backend/api/middlewares/auth.middleware.go:32-62 | a request that passes had a header of the form "<bearer scheme> <token>", and its context holds that token's verified claims |
| AuthMiddleware.AdminTokenPasses | backend/api/middlewares/auth.middleware.go:50-62 | a bearer header whose token verifies with the Admin role passes with exactly the verified claims |
| AuthMiddleware.IssuedAdminTokenPasses | backend/api/middlewares/auth.middleware.go:42-62 | a token issued to an Admin with an HMAC method, sent as "Bearer <token>" before it expires, passes with the Admin's id and username |
| AuthHandler.TokenSubject | backend/api/handlers/auth.handler.go:76-83 | the token's username claim is the user's e-mail address |
| AuthHandler.AdminCredentials | backend/api/handlers/auth.handler.go:43-73 | the guard chain passes only when neither field is all white space; with the next row, padding around either field never changes the decision |
| AuthHandler.CredentialsIgnoreSurroundingSpace | backend/api/handlers/auth.handler.go:43-45 | a request passes the guards exactly when its trimmed form does |
| AuthHandler.Signin | backend/api/handlers/auth.handler.go:31-104 | every refusal is a 400; a sign-in succeeds exactly for a well-formed body whose trimmed, non-empty name and password match an Admin user when GenerateJWT signs, with that token; the request is aborted only for an algorithm the library does not register |
| AuthHandler.UnknownUserLooksLikeWrongPassword | backend/api/handlers/auth.handler.go:54-66 | an unknown user and a wrong password get the identical reply |
| AuthHandler.NonAdminRefused | backend/api/handlers/auth.handler.go:69-73 | a correct password with a role other than exactly "Admin" is refused |
| AuthHandler.SigninTokenIsUsable | backend/api/handlers/auth.handler.go:76-89 | the issued token names the user by e-mail and passes VerifyJWT as an Admin until it expires |
| AuthHandler.PasswordChange | backend/api/handlers/auth.handler.go:116-151 | the change goes ahead exactly for a well-formed body whose trimmed password has at least 6 bytes, with claims in the context and a successful hash; the user id comes from the claims; missing claims give 401 |
| AuthHandler.ShortPasswordRefusedFirst | backend/api/handlers/auth.handler.go:124-128 | a short password is refused before the context is looked at |
| AuthHandler.SixCharactersSuffice | backend/api/handlers/auth.handler.go:125 | any six characters are at least six bytes |
| AuthHandler.PasswordStore.UpdatePassword | backend/api/handlers/auth.handler.go:108-172 | only the claimed user's hash changes, and only after every guard and the database succeed |
| ImageFiles.UploadExt | backend/api/handlers/members.handler.go:98-101 | the upload's extension, or ".jpg" when it has none; it always starts with '.' and holds no other '.' or '/' |
| ImageFiles.ImageFileName | backend/api/handlers/members.handler.go:97-103 | an image name opens with the id's digits and '_', and is exactly as long as those, the name and the upload's extension together (clients.handler.go:92-97 and 260-265 name images the same way) |
| ImageFiles.ImageFileNameShape | backend/api/handlers/members.handler.go:98-103 | an image name ends in the upload's extension, and no space remains before it |
| ImageFiles.ImageFileNameSeparatesIds | backend/api/handlers/members.handler.go:102-103 | records with different ids never share an image name |
| ImageFiles.BackupName | backend/api/handlers/members.handler.go:315-318 | a backup name is the old link with "_backup" put in just before its extension, and is seven characters longer |
| ImageFiles.BackupNameKeepsExt | backend/api/handlers/members.handler.go:315-318 | a backup keeps the old image's extension |
| ImageFiles.BackupNameInjective | backend/api/handlers/members.handler.go:315-318 | distinct images get distinct backup names |
| ImageFiles.BackupOfSuffixed | backend/api/handlers/members.handler.go:315-318 | the backup name puts "_backup" just before the extension |
| ImageFiles.RenameToBackupName | backend/api/handlers/members.handler.go:332-337 | renaming a record from N to "N backup" gives the new image exactly the old image's backup name |
| ImageFiles.Save | backend/api/handlers/members.handler.go:106-126 | saving succeeds exactly without mkdir, create or copy failures; the file then holds the upload; nothing else on the disk changes |
| ImageFiles.SaveUpload | backend/api/handlers/members.handler.go:106-126 | the disk and failure message are those of Save |
| ImageFiles.BackupOld | backend/api/handlers/members.handler.go:311-329 | a backup is made exactly when an old image exists and the rename is not refused; it sits at the backup name, and no backup means no change |
| ImageFiles.BackUpOldImage | backend/api/handlers/members.handler.go:311-329 | the disk and backup path are those of BackupOld |
| ImageFiles.Stage | backend/api/handlers/members.handler.go:311-388 | staging fails exactly on a mkdir, create or copy failure, and the backup path is the one BackupOld decides |
| ImageFiles.StageUpload | backend/api/handlers/members.handler.go:311-388 | the disk, backup path and failure are those of Stage |
| ImageFiles.WriteNew | backend/api/handlers/members.handler.go:340-388 | writing fails exactly on a mkdir, create or copy failure, and it keeps the backup path |
| ImageFiles.WriteNewImage | backend/api/handlers/members.handler.go:340-388 | the disk and failure are those of WriteNew |
| ImageFiles.RestoreBackup | backend/api/handlers/members.handler.go:343-349 | without a backup, nothing is restored |
| ImageFiles.RestoreIfBackedUp | backend/api/handlers/members.handler.go:343-349 | the disk afterwards is RestoreBackup of the disk before |
| ImageFiles.Settle | backend/api/handlers/members.handler.go:400-429 | without a backup, the clean-up touches nothing |
| ImageFiles.SettleUpload | backend/api/handlers/members.handler.go:400-429 | the disk afterwards is Settle of the disk before |
| ImageFiles.Flow | backend/api/handlers/members.handler.go:311-429 | an update with a new image commits exactly when mkdir, create, copy and the row update all succeed, and fails at the database exactly when only the row update fails |
| ImageFiles.BackupPathDiffers | backend/api/handlers/members.handler.go:315-319 | the backup never overwrites the old image's own path |
| ImageFiles.FailureRestoresOldImage | backend/api/handlers/members.handler.go:343-417 | after any failed update whose renames succeed, the old image is back under its name with its old contents and no backup is left, unless the new name clashes with the backup; when the copy or the row update failed and the new file's removal succeeded, the new file is gone too, unless it took the old image's very name |
| ImageFiles.SuccessInstallsNewImage | backend/api/handlers/members.handler.go:391-429 | a committed update leaves the complete new image; when a backup was made, it is removed unless that removal is refused, and the old name no longer holds an image unless the new image took it |
| ImageFiles.OnlyImagePathsChange | backend/api/handlers/members.handler.go:311-429 | an update touches no path but the old image's, its backup's and the new image's |
| ImageFiles.PartialFileKeptWithoutBackup | backend/api/handlers/members.handler.go:373-388 | without a backup, a failed copy leaves the partial new file on disk |
| ImageFiles.NewImageKeptOnDbFailureWithoutBackup | backend/api/handlers/members.handler.go:400-417 | without a backup, a failed row update leaves the new image on disk while the row names the old one |
| ImageFiles.BackupNameClashLosesNewImage | backend/api/handlers/members.handler.go:425-429 | when the new name equals the old image's backup name, a fault-free update commits but deletes the new image |
| Uploads.Attached | backend/api/handlers/members.handler.go:84-135 | attaching keeps every other row and never removes the new one; a 201 carries the new id; without a file, the rows and disk are unchanged |
| Uploads.AttachedOutcome | backend/api/handlers/members.handler.go:84-135 | the reply is 201 exactly when there is no file or the file was saved; a saved image holds the upload's bytes under its image name and the row links it unless the link update failed |
| Uploads.AttachNewImage | backend/api/handlers/members.handler.go:84-135 | the table, disk and reply are those of Attached, and no id is issued |
| Uploads.SaveAndLink | backend/api/handlers/members.handler.go:106-133 | the disk is Save's, and the row is linked only after a successful save and link update |
| Uploads.UpdateWithImage | backend/api/handlers/members.handler.go:300-429 | without an image, only the row update happens; with one, the disk and outcome follow Flow and the row takes the new link only on commit |
| Members.ShowOnHome | backend/api/handlers/members.handler.go:49-52 | the homepage flag is on exactly when the field holds one '1' with nothing but white space around it |
| Members.NewMember | backend/api/handlers/members.handler.go:44-64 | a member is created exactly when the trimmed name and team are non-empty and the team is an int; fields are stored trimmed, with no image, and on the homepage iff the flag is "1" |
| Members.ReadMemberForm | backend/api/handlers/members.handler.go:44-64 | the handler's in-place trimming gives NewMember's result |
| Members.Merged | backend/api/handlers/members.handler.go:269-298 | text fields follow Overwrite; the team changes only when the raw value parses; the homepage flag always comes from the form; the image link is kept |
| Members.ApplyMemberForm | backend/api/handlers/members.handler.go:269-298 | the handler's field-by-field update gives Merged |
| Members.BlankFormOnlyResetsHomepageFlag | backend/api/handlers/members.handler.go:269-298 | a blank form changes only the homepage flag, which is never preserved |
| Members.UpdateTeamIsNotTrimmed | backend/api/handlers/members.handler.go:274-277 | the update does not trim the team, so " 3" leaves the team unchanged where create would accept it |
| Members.TrimAll | backend/api/handlers/members.handler.go:165-168 | every element of the array is replaced by its trimmed value |
| Members.TrimEach | backend/api/handlers/members.handler.go:162-169 | each designation is trimmed, and none is dropped |
| Members.MemberQuery | backend/api/handlers/members.handler.go:142-182 | a malformed max_limit or team_id is a 400, and max_limit is checked first; otherwise the filters hold the parsed numbers, the ParseBool flag and the trimmed designations |
| Members.ParseMemberQuery | backend/api/handlers/members.handler.go:142-182 | the handler's parsing, with its in-place trimming loop, gives MemberQuery |
| Members.DesignationCount | backend/api/handlers/members.handler.go:160-169 | n commas give n + 1 designations, empty ones included |
| Members.MaxLimitCheckedFirst | backend/api/handlers/members.handler.go:144-153 | when both numbers are malformed, the max_limit error is the one reported |
| Members.LeadershipMessages | backend/api/handlers/members.handler.go:207-223 | the two leading designations are fetched; the reply is 200 exactly when the fetch succeeds, and a failure has its own message |
| Members.MemberHandler.CreateMember | backend/api/handlers/members.handler.go:35-136 | a refused form or a failed insert changes nothing; otherwise the member gets a fresh id and the image is attached as Attached says |
| Members.MemberHandler.InsertMember | backend/api/handlers/members.handler.go:66-135 | a failed insert changes nothing; otherwise the row is inserted under a fresh id and the image is attached |
| Members.MemberHandler.GetMember | backend/api/handlers/members.handler.go:226-242 | the member is returned exactly when the id parses and exists; otherwise the reply is a 400 naming which check failed |
| Members.MemberHandler.GetAllMembers | backend/api/handlers/members.handler.go:139-204 | a query error comes first; then the fetch result decides between 500 and 200 with the list |
| Members.MemberHandler.UpdateMember | backend/api/handlers/members.handler.go:245-440 | unknown ids, bad forms and unreadable files change nothing; without a file only the merged row is stored; with one, the disk follows Flow and the row takes the new link only on commit |
| Members.MemberHandler.DeleteMember | backend/api/handlers/members.handler.go:443-475 | a missing member is a 400 and changes nothing; otherwise the row goes first, then the image, and a failed removal is ignored |
| Clients.NewClient | backend/api/handlers/clients.handler.go:44-57 | a client is created exactly when the trimmed name and area are non-empty; all fields are stored trimmed, with no image |
| Clients.ReadClientForm | backend/api/handlers/clients.handler.go:44-57 | the handler's reading of the form gives NewClient's result |
| Clients.Merged | backend/api/handlers/clients.handler.go:198-225 | each of the six text fields follows Overwrite, and the image link is kept |
| Clients.ApplyClientForm | backend/api/handlers/clients.handler.go:198-225 | the handler's field-by-field update gives Merged |
| Clients.MergeKeepsBlankAndRepeats | backend/api/handlers/clients.handler.go:198-225 | a blank form changes nothing, and applying the same form twice equals applying it once |
| Clients.ClientHandler.CreateClient | backend/api/handlers/clients.handler.go:38-130 | a refused form or a failed insert changes nothing; otherwise the client gets a fresh id and its image is saved under data/images/clients |
| Clients.ClientHandler.GetAllClients | backend/api/handlers/clients.handler.go:133-152 | the listing is filtered by the status query value; a failed fetch is a 500 |
| Clients.ClientHandler.GetClient | backend/api/handlers/clients.handler.go:155-171 | the client is returned exactly when the id parses and exists; a missing client is a 404 |
| Clients.ClientHandler.UpdateClient | backend/api/handlers/clients.handler.go:174-368 | a missing client is a 404, and bad input changes nothing; otherwise the merged row and the image follow Flow on the clients directory |
| Clients.ClientHandler.DeleteClient | backend/api/handlers/clients.handler.go:371-404 | a missing client is a 404 and changes nothing; otherwise the row goes first, then the image, and a failed removal is ignored |
| Gallery.SafeChar | backend/api/handlers/gallery.handler.go:94-99 | ASCII letters and digits are kept, and every other character becomes '_' |
| Gallery.MapSafe | backend/api/handlers/gallery.handler.go:94-99 | strings.Map keeps the length and maps each character by SafeChar |
| Gallery.SafeTitle | backend/api/handlers/gallery.handler.go:92-100 | an empty title gives "gallery"; otherwise the rune count is kept, letters and digits stay, and the rest become '_' |
| Gallery.SafeTitleIsSafe | backend/api/handlers/gallery.handler.go:92-100 | the sanitised title holds only letters, digits and '_'; a safe title is unchanged; sanitising is idempotent |
| Gallery.GalleryFileName | backend/api/handlers/gallery.handler.go:85-102 | a created image's name opens with the id's digits and '_', and is exactly as long as those, the sanitised title and the extension |
| Gallery.ReplacementFileName | backend/api/handlers/gallery.handler.go:189-206 | a replacement name opens with the id's digits and '_', and is three characters longer than the created name would be |
| Gallery.GalleryNameShape | backend/api/handlers/gallery.handler.go:86-103 | a created image's name ends in the upload's extension, ".jpg" by default, and holds no '/' |
| Gallery.ReplacementNameShape | backend/api/handlers/gallery.handler.go:190-206 | a replacement name ends in the upload's extension and holds no '/' |
| Gallery.GalleryNamesSeparateIds | backend/api/handlers/gallery.handler.go:102 | two gallery items never share a created image name |
| Gallery.ReplacementNamesSeparateIds | backend/api/handlers/gallery.handler.go:206 | two gallery items never share a replacement name |
| Gallery.RemovedPathMissesGalleryDir | backend/api/handlers/gallery.handler.go:276-280 | update and delete remove under data/images, never the path under data/images/gallery where create wrote the image |
| Gallery.ItemId | backend/api/handlers/gallery.handler.go:152-156 | an id is accepted exactly when it parses as a 64-bit integer of at least 1 |
| Gallery.UploadOne | backend/api/handlers/gallery.handler.go:64-128 | one pass counts the file only when no step failed, and uses up an id whenever the insert succeeded |
| Gallery.UploadAll | backend/api/handlers/gallery.handler.go:64-129 | across the loop the next id and the success count each grow by at most one per file, and no file is ever removed |
| Gallery.UploadAllCounts | backend/api/handlers/gallery.handler.go:61-134 | the counter is exactly the number of files that met no failure, so it is between 0 and the number of files; each successful insert used an id |
| Gallery.NothingSavedMeansNoCleanFile | backend/api/handlers/gallery.handler.go:131-134 | the "failed to save any images" error is given exactly when every file met some failure |
| Gallery.UploadAllKeeps | backend/api/handlers/gallery.handler.go:64-129 | a failure never stops the loop or undoes earlier work: older rows stay, new rows carry the title, linked images were written, and no file is removed |
| Gallery.CreatedImageOutlivesDelete | backend/api/handlers/gallery.handler.go:276-283 | an image CreateGallery writes is still on disk after DeleteGallery removes its item |
| Gallery.Replaced | backend/api/handlers/gallery.handler.go:185-239 | the reply is 200 exactly when create, copy and the link update succeed; the row then names the _v2 image; any failure is a 500 that leaves the rows unchanged |
| Gallery.UpdateIdText | backend/api/handlers/gallery.handler.go:146-150 | the query id is used, or the form id when the query id is empty |
| Gallery.WithTitle | backend/api/handlers/gallery.handler.go:173-182 | storing a title changes only that item's title, by Overwrite |
| Gallery.Retitled | backend/api/handlers/gallery.handler.go:172-245 | an update keeps the set of items and changes no item but the one addressed; it answers 200 only when the upload was readable |
| Gallery.GalleryUpdate | backend/api/handlers/gallery.handler.go:142-248 | a bad id is a 400 that changes nothing; a missing item changes nothing; only the addressed item can change; a 200 needs a parsed form and a readable or absent file |
| Gallery.TitleCommittedBeforeImage | backend/api/handlers/gallery.handler.go:173-245 | a request whose image fails still retitles the item, although it is answered with an error |
| Gallery.DanglingLinkWhenLinkFails | backend/api/handlers/gallery.handler.go:226-239 | when recording the new name fails, the row still names the old image, which has been removed |
| Gallery.ReplacingTwiceLosesImage | backend/api/handlers/gallery.handler.go:206-232 | a second replacement with the same title and extension succeeds but leaves the item naming a file that no longer exists |
| Gallery.GalleryHandler.CreateGallery | backend/api/handlers/gallery.handler.go:35-139 | a bad form, no files or a mkdir failure change nothing; otherwise the table and disk are UploadAll's, and the reply reports the count or the total failure |
| Gallery.GalleryHandler.UploadPart | backend/api/handlers/gallery.handler.go:64-128 | one loop pass leaves the table, disk and counter as UploadOne says |
| Gallery.GalleryHandler.UpdateGallery | backend/api/handlers/gallery.handler.go:142-248 | the table, disk and reply are those of GalleryUpdate |
| Gallery.GalleryHandler.RetitleAndReplace | backend/api/handlers/gallery.handler.go:165-245 | the title is stored, then the image is handled, as Retitled says |
| Gallery.GalleryHandler.ReplaceImage | backend/api/handlers/gallery.handler.go:185-239 | the new image is written, the old one removed, and the new name recorded, as Replaced says |
| Gallery.GalleryHandler.DeleteGallery | backend/api/handlers/gallery.handler.go:251-287 | a bad id is a 400 and a missing item a 500, both changing nothing; otherwise the row goes first, then the image when there is a link, and a failed removal is ignored |
| Gallery.GalleryHandler.GetAllGallery | backend/api/handlers/gallery.handler.go:290-301 | the limit is what Atoi gives with its error dropped: text that is not a number asks for limit 0, and leading digits that overflow ask for the 64-bit bound on the sign's side; a failed fetch is a 500 with an empty listing, and otherwise the fetched items are the 200 reply |
| Inquiries.Submitted | backend/api/handlers/inquiries.handler.go:41-55 | an inquiry is accepted exactly when the five trimmed text fields are all non-empty; they are stored trimmed, and an empty status becomes "NEW" |
| Inquiries.PrepareInquiry | backend/api/handlers/inquiries.handler.go:41-55 | the handler's in-place trimming gives Submitted's result |
| Inquiries.SubmittedIsNormal | backend/api/handlers/inquiries.handler.go:41-55 | a stored inquiry always has a status, and checking it again gives it back unchanged |
| Inquiries.BlankStatusIsKept | backend/api/handlers/inquiries.handler.go:53-55 | a status of white space only is stored as sent, not replaced by "NEW" |
| Inquiries.Patched | backend/api/handlers/inquiries.handler.go:161-179 | each non-empty payload field replaces the stored one untrimmed, and each empty one keeps it |
| Inquiries.ApplyInquiryPatch | backend/api/handlers/inquiries.handler.go:161-179 | the handler's field-by-field update gives Patched |
| Inquiries.PatchLaws | backend/api/handlers/inquiries.handler.go:161-179 | the patch is idempotent, an empty payload changes nothing, and a full payload replaces the inquiry |
| Inquiries.PatchCanBlankAField | backend/api/handlers/inquiries.handler.go:161-179 | an update can store a blank field that create would refuse |
| Inquiries.AllInquiries | backend/api/handlers/inquiries.handler.go:78-111 | the reply is 200 exactly when both queries succeed; the list error is reported before the counts error |
| Inquiries.InquiryHandler.CreateInquiry | backend/api/handlers/inquiries.handler.go:32-75 | a bad payload or a failed insert changes nothing; otherwise the checked inquiry is stored under a fresh id |
| Inquiries.InquiryHandler.GetInquiry | backend/api/handlers/inquiries.handler.go:114-132 | the inquiry is returned exactly when the id parses and exists; a missing one is a 400 |
| Inquiries.InquiryHandler.UpdateInquiry | backend/api/handlers/inquiries.handler.go:135-198 | an unknown id is refused whatever the payload; a successful update stores the patched inquiry |
| Inquiries.InquiryHandler.DeleteInquiry | backend/api/handlers/inquiries.handler.go:201-223 | there is no existence check, so a missing inquiry is a 500; a delete removes exactly that row |
| Teams.NewTeam | backend/api/handlers/teams.handler.go:40-44 | a team is created exactly when the trimmed title is non-empty, and it is stored trimmed |
| Teams.PrepareTeam | backend/api/handlers/teams.handler.go:32-44 | the handler's in-place trimming gives NewTeam's result |
| Teams.Retitled | backend/api/handlers/teams.handler.go:143-146 | the title follows Overwrite, and nothing else changes |
| Teams.TitleNeverBlank | backend/api/handlers/teams.handler.go:143-146 | a stored title never becomes blank; an accepted retitle equals a fresh creation, and a refused one keeps the team |
| Teams.TeamHandler.CreateTeam | backend/api/handlers/teams.handler.go:32-62 | a bad payload or a failed insert changes nothing; otherwise the trimmed team is stored under a fresh id |
| Teams.TeamHandler.GetTeam | backend/api/handlers/teams.handler.go:77-93 | the team is returned exactly when the id parses and exists; a missing one is a 400 |
| Teams.TeamHandler.UpdateTeam | backend/api/handlers/teams.handler.go:118-165 | a missing team is refused before the payload is read; only the title can change |
| Teams.TeamHandler.DeleteTeam | backend/api/handlers/teams.handler.go:168-190 | a missing team surfaces as the repository's error, a 500; a delete removes exactly that row |
| Teams.AllTeams | backend/api/handlers/teams.handler.go:65-74 | the reply is 200 exactly when the listing succeeds |
| Teams.TeamsAndMembers | backend/api/handlers/teams.handler.go:95-115 | the reply is 200 exactly when the member repository's query succeeds |

## Left out

- SQL, pgx, timeouts and the time stamps the database sets are not modelled. Each table is a map from id to row. GetByID errors of any kind behave like a missing row, as the handlers treat them alike.
- The record shapes follow the handlers, not the repositories:
  - MemberRepository.Create stores ImageLink and Note in each other's columns; this is not reproduced.
  - MemberRepository.GetAll and GalleryRepository.GetAll take fewer arguments than the handlers pass; the handlers' filters are passed to an abstract `fetch`.
  - models.Inquiry lacks the Mobile and Email fields the handler reads; the handler's fields are modelled.
- The listings' contents (GetClientMetrics, GetStatusCounts, GetTeamsWithMembers) are not modelled. They are abstract inputs, and the replies carry them as `DataBody`.
- Multipart parsing and its size limits are a `formOk` input. r.FormFile is an `Upload`: no file, an unreadable file, or a file with its name and bytes.
- In UpdateGallery, r.FormValue("id") parses the form itself. The form id is an input, and the later ParseMultipartForm result is `formOk`.
- JSON decoding and encoding are abstract. A body is its size, the sequence of values it holds, whether malformed text follows them, and how far the decoder reads before the first value is complete. A reply body records the message and id the handler writes.
- Opening the upload, closing files, directory permissions and the deferred closes are not modelled. Each OS failure is a flag.
- The disk holds files only, not directories. When a deleted member or client had no image, Go's os.Remove is aimed at the storage directory itself and removes it when it is empty. In the model that removal finds no file, and the directory's fate is not represented.
- A failed restore rename is a flag, and so is a failed backup removal.
- bcrypt is an input: `matches` for CheckPassword and `hash` for HashPassword.
- The user repository is an input: `lookup` and a password map.
- The JWT library's compact encoding, signing and signature check are abstract. A token is what the library decodes, and the signature is valid exactly when it was made with the configured secret.
- The library's error texts are its categories, without the detail it appends.
- Jwt.VerifyToken: wrapped error texts drop their `%w` detail, for example "failed to parse created_at time".
- Jwt.GenerateJWT: numeric claims are exact reals. float64 rounding of ids beyond 2^53 is not modelled. Signing errors are the library's categories, without detail, and its refusal of an empty HMAC key is not modelled.
- Jwt.Truncate: exact for every real. Go's int64 conversion of a float64 beyond ±2^63, in the handlers and in the library's reading of exp and nbf, is implementation-defined and not modelled, so claims outside the int64 range are not judged as Go would judge them.
- time.Now is a parameter in seconds.
- Rfc3339.ParseZone: zone offsets with seconds ("+01:00:00") and the layout's other, non-RFC 3339 spellings are not modelled.
- Text.ToLowerAscii: lowers ASCII letters only. strings.ToLower also lowers other scripts, which yields no letter of "bearer", so the comparison it feeds is unaffected.
- Paths.Join: models filepath.Join for a clean directory and names without "." or ".." segments. filepath.Clean's other rewriting is not modelled.
- Logging is not modelled.
- Today, NullableTime, GetBranchID, GenerateMemoNo and EnsureDir are not modelled; no modelled handler calls them.
- Routes, main and the handler wiring are not modelled; they only register handlers.
- The frontend is not modelled.
