# User resource: a verified model

This project models the user-record core of a small REST service whose one resource is a user document. It has two parts.

- **The schema** (`models/userModel.js`) says what happens to a user before it is stored. Every string path is trimmed, and the email is also lower-cased. `name`, `email` and `phone` are required, the email must match `^\S+@\S+\.\S+$`, and `email` carries a unique index. `company` and the embedded address (`street`, `city`, `zipcode`, `geo.lat`, `geo.lng`) are optional, and each of their parts is trimmed.
- **The five handlers** (`controllers/userController.js`) are list, get by id, create, update and delete. Each one reads or changes the collection and answers with a status code and, where the code sends one, a document.

The model has three modules, one file each:

- `strings.dfy`, module `Strings`: the string primitives the schema's setters rest on. They are ECMAScript white space (what `trim` strips and what `\s` matches), `trim`, and `toLowerCase` for ASCII letters.
- `user_model.dfy`, module `UserModel`: the `Geo`, `Address` and `User` datatypes and the setters (`Normalize`). It also holds the validators (`Valid`, `ValidEmail`), a second reading of the email pattern taken straight from the regular expression (`EmailPattern`), and the unique-email predicates.
- `user_controller.dfy`, module `UserController`: the request body, JavaScript truthiness, and the update's `supplied || stored` merge. It also holds the class `UserStore`. The class keeps the collection in a `map<Id, User>` field, and the five handlers are its methods. Each method returns a status code (plus the document or list the handler sends) and updates the map in place.

Create's required-field check (`!name || !email || !phone`) rejects an empty string as well as an absent field. The model's `Truthy` follows it: only a present, non-empty string is truthy.

The class invariant `Invariant()` says three things: every stored id is well formed, every stored document is valid and normalised, and no two documents share an email. Every handler preserves it. So after any sequence of requests the collection holds only normalised, valid documents with unique emails.

Two things the database does are parameters of the model:
- Whether a string casts to an id is the uninterpreted predicate `wellFormed`, given to the constructor.
- The id a create stores under is the argument `newId`. It is assumed to cast and not to be in use. A generated ObjectId only makes a collision unlikely; a collision would fail the insert with a duplicate-key error (a 500), which the model does not produce.

## Model

| member | source | states |
|---|---|---|
| Strings.IsSpace | models/userModel.js:28 | The characters `trim` strips and `\s` matches: ECMAScript WhiteSpace and LineTerminator (tab, line feed, vertical tab, form feed, carriage return, space, no-break space, U+1680, U+2000-U+200A, U+2028, U+2029, U+202F, U+205F, U+3000 and U+FEFF). |
| Strings.TrimStart | models/userModel.js:28 | The result is the suffix of the input left once a maximal leading run of white space is removed. |
| Strings.TrimEnd | models/userModel.js:28 | The result is the prefix of the input left once a maximal trailing run of white space is removed. |
| Strings.LeadingSpace | models/userModel.js:28 | The count is the length of the maximal run of white space the input starts with: every character before it is white space and the one at it, if any, is not. |
| Strings.Trim | models/userModel.js:11-16 | The `trim` setter keeps the infix of the input that starts right after the leading white space and has only white space after it. Neither end of the result is white space. |
| Strings.TrimStartSkips | models/userModel.js:28 | White space followed by a string that does not start with white space loses exactly that white space at the front. |
| Strings.TrimEndSkips | models/userModel.js:28 | A string that does not end with white space, followed by white space, loses exactly that white space at the back. |
| Strings.TrimOfPadded | models/userModel.js:28 | A string with white space at neither end, padded with white space on both sides, trims back to itself, so the trimmed infix is unique. |
| Strings.TrimOfPaddedInfix | models/userModel.js:28 | An infix of a string with white space at neither end and only white space around it is what `trim` gives, however much white space is added on either side. |
| Strings.TrimIgnoresPadding | models/userModel.js:28 | Adding white space on either side of a string does not change what `trim` gives. |
| Strings.TrimIdempotent | models/userModel.js:28 | Trimming twice gives the same string as trimming once. |
| Strings.TrimmedIsFixed | models/userModel.js:44 | A string with no white space at either end is left unchanged by `trim`. |
| Strings.Lower | models/userModel.js:35 | The `lowercase` setter keeps the length. Each letter A-Z becomes the matching letter a-z, every other character is unchanged, no upper-case letter is left, and white space stays where it was. |
| Strings.LowerIgnoresCase | models/userModel.js:35 | Two strings that agree position by position up to the case of ASCII letters lower-case to the same string. |
| Strings.LowerCasedIsFixed | models/userModel.js:35 | A string with no upper-case letter is left unchanged by lower-casing. |
| Strings.TrimLowerCommute | models/userModel.js:34-35 | Trimming and lower-casing commute, so the order of the email's two setters does not matter. |
| UserModel.NormalizeAddress | models/userModel.js:10-18 | The address sub-schema's setters: each present part (`street`, `city`, `zipcode`, `geo.lat`, `geo.lng`) is trimmed and each absent part stays absent. |
| UserModel.Normalize | models/userModel.js:24-50 | Every setter of the schema applied to a document: name, phone and company are trimmed, the email is trimmed and lower-cased, and the address goes through the sub-schema's setters. |
| UserModel.NormalizeEmail | models/userModel.js:34-35 | The stored email is the lower-cased form of the infix of the input that starts right after its leading white space and has only white space after it. It is trimmed and has no upper-case letter. |
| UserModel.NormalizeEmailIgnoresPadding | models/userModel.js:34-35 | White space added on either side of an email does not change the stored email. |
| UserModel.NormalizeEmailIgnoresCase | models/userModel.js:34-35 | Two emails that differ only in the case of their letters are stored as the same string. |
| UserModel.NormalizeIsNormalized | models/userModel.js:10-18 | After the setters, every string path of a user, including company and each address and geo part, is trimmed, and the email is lower-case. |
| UserModel.NormalizeAddressIsNormalized | models/userModel.js:10-18 | After the sub-schema's setters, every present part of an address, including `geo.lat` and `geo.lng`, is trimmed. |
| UserModel.NormalizedIsFixed | models/userModel.js:46-50 | A normalised user, with its optional company and address, passes through the setters unchanged. |
| UserModel.TrimOptFixed | models/userModel.js:46-49 | An optional path that is absent, or already trimmed, is unchanged by its setter. |
| UserModel.AddressFixed | models/userModel.js:10-18 | A normalised address passes through the sub-schema's setters unchanged. |
| UserModel.NormalizeIdempotent | models/userModel.js:24-50 | Normalising an already normalised user returns it unchanged. |
| UserModel.ValidEmail | models/userModel.js:36-39 | The email `match` validator as a position test: no white space anywhere, an `@` with at least one character before it, and a `.` at least two places after the `@` with at least one character after it. |
| UserModel.Valid | models/userModel.js:25-45 | The validators on a document that has been through the setters: name, email and phone are non-empty (`required` on a string) and the email passes `ValidEmail`. |
| UserModel.ValidEmailIffPattern | models/userModel.js:36-39 | The position test accepts a string exactly when the string is `\S+` `@` `\S+` `.` `\S+`, in both directions. The position test is: no white space, an `@` after at least one character, and a `.` at least two places after it with a character following. |
| UserModel.ValidEmailIgnoresCase | models/userModel.js:35-39 | Lower-casing does not change whether an email matches the pattern. |
| UserModel.RequiredAfterTrim | models/userModel.js:25-45 | A user whose name, email or phone is empty once trimmed fails validation. |
| UserModel.EmailTaken | controllers/userController.js:72 | `findOne({ email })` finds something: some stored document has exactly the given (normalised) email. |
| UserModel.EmailTakenByOther | controllers/userController.js:127 | The unique index on `email` (models/userModel.js:33) rejects `save()`: some stored document under an id other than the one being saved has the given email. |
| UserModel.StoreKeepsUnique | models/userModel.js:33 | Storing a document whose email no other document has keeps all emails in the collection distinct. |
| UserController.Truthy | controllers/userController.js:64 | JavaScript truthiness of a request string: present (not absent or null) and not the empty string. Create's required-field check fails exactly when one of name, email and phone is not truthy. |
| UserController.Merge | controllers/userController.js:121-125 | The document update saves: each path is assigned the supplied value or else the stored one (a truthy supplied string, otherwise the stored value; a supplied address, otherwise the stored one) and goes through its setters again. |
| UserController.MergeRule | controllers/userController.js:120-125 | Field by field on the merged document: a falsy supplied value keeps exactly the stored value. A truthy one replaces it with its normalised form. A supplied address replaces the whole stored address. |
| UserController.MergeFalsyIsIdentity | controllers/userController.js:120-125 | An update body with nothing truthy in it, for example one whose fields are all `""`, leaves the stored document exactly as it was. |
| UserController.MergeIsNormalized | controllers/userController.js:121-127 | The merged document is normalised whatever the body holds. |
| UserController.NewUser | controllers/userController.js:80-86 | The document create builds from the body is normalised, and its email is the normalised input email. |
| UserController.NewUserOfTrimmed | controllers/userController.js:80-86 | A body whose name and phone are already trimmed, with no company or address, builds a document with exactly that name and phone and the normalised email. |
| UserController.DuplicateUpToCaseAndPadding | controllers/userController.js:72-78 | Once a document with some email is stored, a create whose email differs from it only in letter case and surrounding white space finds the email taken. |
| UserController.ListOne | controllers/userController.js:11-15 | Adding one more not-yet-listed stored document under its id to the list keeps the list duplicate-free and exact: it holds exactly the stored documents not still pending. |
| UserController.PutKeepsConforming | controllers/userController.js:80-86 | Storing a valid, normalised document under a well-formed id, when no other document has its email, keeps the collection invariant. |
| UserController.RemoveKeepsConforming | controllers/userController.js:150 | Removing a document keeps the collection invariant. |
| UserController.UserStore.GetUsers | controllers/userController.js:9-16 | Returns 200. `count` is the number of stored documents and the length of `data`. Every stored document appears in `data` exactly once, under its id, and `data` holds nothing else. |
| UserController.UserStore.GetUserById | controllers/userController.js:31-53 | Returns 400 exactly when the id does not cast, and 404 exactly when it casts but is absent. Otherwise returns 200 with exactly the stored document. It never changes the collection. |
| UserController.UserStore.CreateUser | controllers/userController.js:61-100 | Falsy name, email or phone gives 400. Otherwise a stored user with the normalised email gives 409, and a built document that fails validation gives 500. In each of these cases the collection is unchanged. Otherwise returns 201 and the built document is added under the fresh id, with every other entry unchanged. The invariant is kept. |
| UserController.UserStore.UpdateUser | controllers/userController.js:107-141 | An id that does not cast gives 400 and an absent id gives 404, both with the collection unchanged. Otherwise, if the merged document is valid and no other document has its email, returns 200 with the merged document, which is stored in place under the same id. Otherwise returns 400 with the collection unchanged. The invariant is kept. |
| UserController.UserStore.DeleteUser | controllers/userController.js:148-170 | An id that does not cast gives 400 and an absent id gives 404, both with the collection unchanged. Otherwise returns 200 and exactly that entry is removed. The invariant is kept. |
| UserController.AnaEmailsSameUpToCase | models/userModel.js:35 | `ANA@X.com` and `ana@x.com` agree up to letter case. |
| UserController.AnaEmailNormalizes | models/userModel.js:34-35 | `ANA@X.com` and `ana@x.com` both normalise to `ana@x.com`. |
| UserController.AnaEmailIsValid | models/userModel.js:36-39 | `ana@x.com` matches the email pattern. |
| UserController.AnaBodyBuildsAna | controllers/userController.js:62-86 | The first walk-through body passes the required-field check and builds the user `Ana`, `ana@x.com`, `555` with no company or address. |
| UserController.AnaBodiesNormalize | controllers/userController.js:62-86 | The two walk-through bodies pass the required-field check and build users with the same email. The first builds the valid user `Ana`, `ana@x.com`, `555`. |
| UserController.CreateConflictDeleteGet | controllers/userController.js:61-170 | On a new store: creating `ANA@X.com` gives 201 with the stored email `ana@x.com`. Creating `ana@x.com` again gives 409. Deleting the first gives 200, and a later get of its id gives 404. |

## Left out

- The database connection (`config/db.js`), the environment read of the connection string, logging and process exit are not modelled. They are I/O. The constructor stands in for an empty collection.
- Express routing (`routes/userRoutes.js`), JSON envelopes, the `success` flag and message strings are not modelled. A status code plus the document or list is what the model keeps.
- Persistence failures are not modelled: a lost connection, or an error thrown by `find`, `findOne` or `create` for reasons other than validation. That leaves out list's 500 branch, and create's 500 branch for anything other than a validation failure.
- Concurrency is not modelled. Requests run one at a time, so the race between create's duplicate check and its insert cannot arise, and the unique index never rejects a create.
- The `createdAt` / `updatedAt` timestamps are not modelled. They are wall-clock values the library maintains.
- Only strings are modelled as request values. Mongoose's casting of numbers or other JSON values to strings is not. Nor is JavaScript truthiness of non-string values other than absent/null. Nor is the dropping of unknown paths.
- The value of `address` in a request is either absent (`None`) or an address whose parts are optional. The removal of empty nested objects when a document is saved ("minimize") is not modelled.
- The order of `data` in the list response is the store's natural order. The model leaves that order unspecified and proves only that every document appears exactly once.
- How ids are cast and generated is not modelled. `wellFormed` is an uninterpreted predicate, and `newId` is whatever unused id the generator returns. The table is keyed by the raw id string, while the ObjectId cast maps several strings to one id: a 24-digit hex id ignores letter case, and a 12-byte string also casts. So a get, update or delete with the upper-case hex of a stored id finds the document in the service, but gives 404 in the model.
- Update validates the whole merged document, as `save()` does by default.
- Duplicate detection compares normalised emails. That is what `findOne({ email })` does once the query has been cast through the email path's setters, and the caster's own mechanics are not modelled.
- Strings.Lower: it maps only the ASCII letters A-Z. The full Unicode case mapping of `toLowerCase` (accented letters, and mappings that change length) is not modelled, so a stored email is lower-case only in the ASCII sense.
- Strings: Dafny characters are Unicode scalar values. JavaScript strings are UTF-16 code units, so lone surrogates are not modelled.
