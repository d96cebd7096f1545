# What's On in Romiley, modelled in Dafny

What's On in Romiley is a listings site for the events held in the venues of
Romiley. Venue owners sign in with an e-mail address and a password and manage
their own events, which can be one-off, weekly or monthly. A platform
administrator signs in separately. The administrator manages venues,
bulk-imports events from a CSV file, deletes events in bulk from a dashboard
that also composes a social-media post, and keeps a media library of uploaded
images. The public events page searches upcoming events. A cron endpoint
lists the venues that have nothing coming up.

This project models the server actions, the route handlers, the middleware,
the sign-in callbacks and the state of the two administrator screens, and
proves what each of them promises:

- `Store` is the database. `RecordStore` is a class whose `venues`, `events`,
  `media` and `blobs` fields the actions update in place. Its methods are the
  Prisma and blob-storage calls the actions make, and its invariant `Valid`
  carries the unique owner e-mail and the rule that every event has a venue.
- `Common`, `DateTime`, `Cookies` and `Credentials` hold the JavaScript
  built-ins, the parts of `Date` the code relies on, the cookie jar, and
  bcrypt as an abstract hash.
- `CsvParse` and `CsvImport` are the CSV import: the slug, the strict date
  parser, the quote-aware line splitter, and the import loop. The loop finds
  or creates each venue and upserts each event within its calendar day.
- `EventActions`, `PlatformEvents`, `PlatformVenues`, `MediaActions`,
  `ChangePassword`, `VenueAuth` and `PlatformAuth` are the server actions.
- `Authorize` is the credentials provider and the JWT and session callbacks.
  `Middleware` is the route gate.
- `Upload` and `Reminders` are the two route handlers.
- `EventsPage` is the public search.
- `Dashboard.Board` and `MediaLibrary.Library` are the two client screens.
  Each is a class whose fields are the screen's React state and whose methods
  are its handlers.

Inputs the code reads from outside are parameters of the members that read
them:

- the clock (`Date.now()`, `new Date()`);
- `NODE_ENV` and the other environment values;
- the request's cookies and form fields;
- bcrypt's hash;
- date-fns `addWeeks` and `addMonths`, and `new Date(string)`;
- the blob store's URL;
- faults of the store and of the blob service.

The comment at src/app/actions/import.ts:11 calls the import's date format
strict `DD/MM/YYYY` and `HH:MM`, but the code accepts any number of digits in
each part ("1/2/3" is 1 February 1903). The model follows the code:
`CsvParse.ParseNumerals` and `CsvParse.TwoDigitYear` state what it does.

## Model

| member | source | states |
|---|---|---|
| Common.OrElse | src/app/actions/platform-auth.ts:9-10 | `a \|\| b` on optional strings: a non-empty first operand wins, otherwise the second |
| Common.TrimStart | src/app/actions/import.ts:64 | the result is a suffix of the input that does not start with white space, and every character dropped is white space |
| Common.TrimEnd | src/app/actions/import.ts:64 | the result is a prefix of the input that does not end with white space, and every character dropped is white space |
| Common.TrimIsTrimmed | src/app/actions/import.ts:64 | `trim()` leaves no white space at either end and never lengthens the string |
| Common.TrimOfTrimmed | src/app/actions/import.ts:64 | trimming a string with no white space at its ends returns it unchanged |
| Common.TrimChars | src/app/actions/import.ts:40 | trimming only removes characters: the result's multiset of characters is contained in the input's |
| Common.Trim | src/app/actions/import.ts:64 | `trim()` is `trimEnd()` after `trimStart()`; its properties are the three rows above |
| Common.Lower | src/app/actions/import.ts:7 | `toLowerCase()` keeps the length and lowers every capital letter, leaving other characters alone |
| Common.ContainsAt | src/app/events/page.tsx:19-21 | a string occurring at some position is contained (the `contains` filter, one direction) |
| Common.ContainsWitness | src/app/events/page.tsx:19-21 | a contained string occurs at some position (the other direction) |
| Common.SplitCount | src/app/actions/import.ts:57 | `split(sep)` gives exactly one more piece than the input has separators |
| Common.SplitPieces | src/app/actions/import.ts:13-14 | no piece of a split contains the separator |
| Common.JoinSplit | src/app/actions/import.ts:57 | joining the pieces of a split with the separator gives back the input |
| Common.SplitJoin | src/app/actions/import.ts:13-14 | splitting a join of separator-free pieces gives back those pieces |
| Common.Split | src/app/actions/import.ts:57 | `split(sep)` on a one-character separator gives at least one piece |
| Common.Utf16Length | src/app/actions/change-password.ts:21 | `s.length` counts UTF-16 code units: at least one and at most two per character |
| Common.Utf16LengthOfBmp | src/app/actions/change-password.ts:21 | a string of characters below U+10000 has a `length` equal to its number of characters |
| Common.FilterSubsequence | src/app/platform/dashboard/client.tsx:84-93 | `Array.filter` keeps the kept elements in their original order |
| Common.FilterAgrees | src/app/platform/dashboard/client.tsx:134 | two filters that keep the same elements give the same list |
| CsvParse.SplitSnoc | src/app/actions/import.ts:57 | splitting a string with one more character adds an empty piece when that character is the separator, and otherwise extends the last piece |
| Common.NatToString | src/app/actions/import.ts:177 | the decimal rendering of a count is a non-empty run of digits with no leading zero |
| Common.NatToStringValue | src/app/actions/import.ts:177 | the decimal rendering reads back as the number it renders |
| Common.Filter | src/app/platform/dashboard/client.tsx:84-93 | `Array.filter`: an element is in the result exactly when it is in the input and kept, and the result is no longer |
| Common.FilterAppend | src/app/platform/dashboard/client.tsx:134 | filtering a concatenation is the concatenation of the filtered parts, so the order is kept |
| Common.FilterAll | src/app/platform/dashboard/client.tsx:88-92 | a filter that keeps every element returns the list unchanged |
| Common.FilterDistinct | src/app/platform/media/client.tsx:55 | filtering a list without duplicates yields a list without duplicates |
| DateTime.ToNumber | src/app/actions/import.ts:13-14 | `Number` of an empty or blank field is 0 |
| DateTime.LocalDate | src/app/actions/import.ts:20-21 | `new Date(y, m, d, h, min)` is invalid when any argument is NaN, and a valid result lies within TimeClip's range |
| DateTime.MakeDay | src/app/actions/import.ts:20 | ECMAScript MakeDay: a month outside 0..11 carries into the year and a day outside the month into the neighbouring months; its properties are CsvParse.LocalDateOfCivil and Dashboard.MonthAt |
| DateTime.DayStart | src/app/actions/import.ts:124-125 | `setHours(0, 0, 0, 0)`: the start lies on a day boundary, at or before the instant and less than a day before it |
| DateTime.DayEnd | src/app/actions/import.ts:126-127 | `setHours(23, 59, 59, 999)`: the end is the millisecond before a day boundary, at or after the instant and less than a day after it |
| DateTime.SameDayWindow | src/app/actions/import.ts:124-138 | an instant lies between the start and the end of another instant's day exactly when both fall on the same calendar day |
| DateTime.InOwnWindow | src/app/actions/import.ts:124-127 | every instant lies inside its own day window |
| DateTime.IntToString | src/app/api/upload/route.ts:28 | the template rendering of a non-negative number is its decimal rendering |
| DateTime.PadStart2 | src/app/platform/dashboard/client.tsx:86 | `String(n).padStart(2, '0')` has at least two characters, is zero-padded below 10 and is the plain rendering from 10 to 99 |
| Cookies.ValueOf | src/app/actions/events.ts:11 | `cookies().get(name)?.value` is present exactly when the cookie is set, and is then its value |
| Cookies.SessionCookie | src/app/actions/auth.ts:24-29 | the sign-in cookie holds the value, is HTTP-only, is secure exactly in production and expires one day after now |
| Cookies.CookieJar.Set | src/app/actions/auth.ts:25 | setting a cookie replaces that name only |
| Cookies.CookieJar.Delete | src/app/actions/auth.ts:38 | deleting a cookie removes that name only |
| Credentials.MalformedHashMatchesNothing | src/auth.ts:57 | `bcrypt.compare` against a stored value that is not a 60-character hash fails for every password |
| Credentials.AcceptedByTheOwner | src/app/actions/auth.ts:16-21 | an e-mail and a password are accepted exactly when the venue found by that owner e-mail has a stored hash matching the password |
| Store.VenueByEmail | src/auth.ts:10 | `findUnique` by owner e-mail finds a venue exactly when the e-mail is taken, and that venue holds it |
| Store.RecordStore.FindFirstVenueNamed | src/app/actions/import.ts:96-98 | `findFirst` by name returns the earliest-created venue with exactly that name, and nothing exactly when no venue has it |
| Store.RecordStore.CreateVenue | src/app/actions/import.ts:102-110 | creating a venue fails, changing nothing, exactly when the owner e-mail is taken; otherwise it adds one venue under a fresh id |
| Store.RecordStore.UpdateVenue | src/app/actions/platform-venues.ts:84-93 | the update succeeds exactly when the venue exists and no other venue holds the new e-mail, and then replaces only that venue's columns |
| Store.RecordStore.SetVenuePassword | src/app/actions/change-password.ts:49-52 | the update succeeds exactly when the venue exists, and replaces only its password |
| Store.RecordStore.DeleteVenue | src/app/actions/platform-venues.ts:61 | deleting an existing venue removes it together with its events and nothing else |
| Store.RecordStore.CreateEvent | src/app/actions/events.ts:45-50 | creating an event fails exactly when the venue is missing or the date is invalid; otherwise it adds one event under a fresh id |
| Store.RecordStore.UpdateEvent | src/app/actions/events.ts:113-122 | the update succeeds exactly when the event exists and the date is valid, and replaces only the edited columns |
| Store.RecordStore.DeleteEvent | src/app/actions/platform-events.ts:16 | `delete` removes that event and reports whether it existed |
| Store.RecordStore.DeleteEventsWhere | src/app/actions/events.ts:151-153 | `deleteMany` keeps exactly the events the filter does not match |
| Store.RecordStore.CreateMedia | src/app/api/upload/route.ts:33-42 | a new media row with the given columns is added under a fresh id, stamped with the creation time |
| Store.RecordStore.DeleteMedia | src/app/actions/media.ts:28 | the media row is removed, and the result says whether it existed |
| Store.RecordStore.SetMediaLabel | src/app/actions/media.ts:35-38 | the update succeeds exactly when the row exists, and sets only its label |
| Store.RecordStore.PutBlob | src/app/api/upload/route.ts:28-30 | the uploaded URL is added to the blob store |
| Store.RecordStore.DeleteBlob | src/app/actions/media.ts:25 | the URL is removed from the blob store |
| CsvParse.Dasherize | src/app/actions/import.ts:7 | every run of characters other than letters and digits becomes one dash: only letters, digits and single dashes remain, a leading dash appears exactly when the input starts with such a character, and the letters and digits are kept in order |
| CsvParse.GenerateSlug | src/app/actions/import.ts:6-8 | the slug holds only lower-case letters, digits and single dashes, has no dash at either end, and keeps the letters and digits of the lower-cased name in order |
| CsvParse.AlnumsWithoutDashes | src/app/actions/import.ts:7 | stripping the end dashes keeps the letters and digits and leaves no dash at either end |
| CsvParse.DasherizeFixed | src/app/actions/import.ts:7 | a string of letters, digits and single dashes is unchanged by the replacement |
| CsvParse.SlugIdempotent | src/app/actions/import.ts:6-8 | the slug of a slug is that slug |
| CsvParse.DasherizeSlugChar | src/app/actions/import.ts:7 | a letter or digit passes through the replacement unchanged |
| CsvParse.DasherizeOther | src/app/actions/import.ts:7 | a maximal run of other characters becomes exactly one dash |
| CsvParse.ParseStrictDate | src/app/actions/import.ts:10-27 | a date with fewer than two slashes or a time without a colon is rejected, and an accepted date lies within TimeClip's range |
| CsvParse.DateFromNumbers | src/app/actions/import.ts:16-23 | fewer than three date parts or two time parts are rejected, a day, month or year that is zero or NaN is rejected, and an accepted date has numeric parts and lies within range |
| CsvParse.ToNumberOfNumeral | src/app/actions/import.ts:13-14 | `Number` of a run of digits is its decimal value |
| CsvParse.SplitDateNumerals | src/app/actions/import.ts:13 | a date written as three digit runs joined by slashes splits into those three runs |
| CsvParse.SplitTimeNumerals | src/app/actions/import.ts:14 | a time written as two digit runs joined by a colon splits into those two runs |
| CsvParse.ParseNumerals | src/app/actions/import.ts:10-23 | digit-only day, month and year that are all non-zero, with any hour and minute, parse to `new Date(year, month - 1, day, hour, minute)` |
| CsvParse.NonNumericPartRejected | src/app/actions/import.ts:13-18 | a date whose day, month or year `Number` reads as NaN ("ab/1/2000") is rejected |
| CsvParse.NaNPartRejected | src/app/actions/import.ts:16-18 | a NaN day, month or year is rejected |
| CsvParse.ZeroFieldRejected | src/app/actions/import.ts:16-18 | a zero day, month or year is rejected |
| CsvParse.LocalDateOfCivil | src/app/actions/import.ts:20 | an in-range month, hour and minute and a year of at least 100 give that calendar day at that wall-clock time |
| CsvParse.TwoDigitYear | src/app/actions/import.ts:20 | a year from 0 to 99 is read as 1900 plus that year |
| CsvParse.Unquote | src/app/actions/import.ts:40 | removing the end quotes leaves a string with no quotes unchanged |
| CsvParse.ScanSnoc | src/app/actions/import.ts:35-45 | the character-by-character scan of a string and one more character is one more step of the scan |
| CsvParse.ScanInvariant | src/app/actions/import.ts:30-48 | while scanning, the current field has no quote; every finished field is trimmed and quote-free; the scanner is inside quotes exactly when an odd number of quotes has been read; and there are no more finished fields than commas |
| CsvParse.ScanParity | src/app/actions/import.ts:37-38 | the scanner is inside quotes exactly when it has read an odd number of quotes |
| CsvParse.ScanFieldCount | src/app/actions/import.ts:39-41 | a field is finished only at a comma outside quotes, so finished fields never outnumber commas |
| CsvParse.CommasOutside | src/app/actions/import.ts:36-41 | the commas the splitter acts on, those preceded by an even number of double quotes, are never more than the commas of the line |
| CsvParse.ScanCommas | src/app/actions/import.ts:35-45 | the splitter finishes exactly one field per comma outside double quotes |
| CsvParse.FinishedField | src/app/actions/import.ts:40 | a pushed field has no quote, so it is pushed trimmed and quote-free |
| CsvParse.CsvFields | src/app/actions/import.ts:30-48 | a line gives exactly one more column than it has commas outside double quotes, and each column is trimmed and quote-free |
| CsvParse.ParseCsvLine | src/app/actions/import.ts:30-48 | the loop computes the columns of the line |
| CsvParse.ScanWithoutQuotes | src/app/actions/import.ts:35-45 | on a quote-free prefix the scan's fields and current field are the trimmed comma-separated pieces |
| CsvParse.CsvFieldsWithoutQuotes | src/app/actions/import.ts:30-48 | a line with no quotes gives exactly `split(',')` with every piece trimmed |
| CsvImport.IsIgnored | src/app/actions/import.ts:64-68 | a trimmed line is passed over when it is empty or starts with `date,venue` in any letter case |
| CsvImport.PlaceholderEmail | src/app/actions/import.ts:101-107 | a placeholder venue's owner e-mail is the slug of the trimmed name followed by "@placeholder.com"; see CsvImport.FindOrCreateVenue |
| CsvImport.WindowValid | src/app/actions/import.ts:124-127 | the day window of a date is usable exactly when both of its ends are representable dates; see CsvImport.SaveEvent |
| CsvImport.SameKey | src/app/actions/import.ts:129-137 | an event matches a line when it has the line's venue and exact title and falls on the line's day; see DateTime.SameDayWindow |
| CsvImport.Upserted | src/app/actions/import.ts:140-163 | the upsert's effect: the one matching event updated in its four columns, or one new event added under a fresh id |
| CsvImport.SavedAs | src/app/actions/import.ts:96-163 | a saved line was upserted for the first venue of its name |
| CsvImport.Usable | src/app/actions/import.ts:114-127 | a line can reach the upsert only with a row, a parsed date and a representable day window |
| CsvImport.Saves | src/app/actions/import.ts:94-164 | a line is saved exactly when it is usable and its venue exists or its placeholder e-mail is free |
| CsvImport.UsableLines | src/app/actions/import.ts:63-170 | the number of lines that can reach the upsert |
| CsvImport.KnownLines | src/app/actions/import.ts:63-170 | the number of usable lines whose venue name the store already had |
| CsvImport.KnownWithinUsable | src/app/actions/import.ts:63-170 | lines of known venues are among the usable lines |
| CsvImport.CountersStep | src/app/actions/import.ts:63-170 | one line adds to the saved count only if usable, and a usable line of a venue the store had is always saved |
| CsvImport.DataLines | src/app/actions/import.ts:63-68 | the number of lines the loop counts, never more than the lines of the file |
| CsvImport.KeysOf | src/app/actions/import.ts:63-92 | the import key of each line of the file, one per line |
| CsvImport.CompletionMessage | src/app/actions/import.ts:177 | the success message names the events processed, the venues created and the lines skipped, in that order |
| CsvImport.ParseRow | src/app/actions/import.ts:71-92 | a row is refused exactly when the line has fewer than five columns or an empty date, venue, time, category or title column; an accepted row's text columns are quote-free and a booking URL is present only when non-empty |
| CsvImport.RowOf | src/app/actions/import.ts:64-68 | a blank line and the header line give no row |
| CsvImport.KeyOf | src/app/actions/import.ts:64-92 | a line has an import key exactly when it gives a row |
| CsvImport.GrowsTransitive | src/app/actions/import.ts:63-170 | two successive imports' changes compose: venues are kept, only placeholder venues under new names are added, and events are kept up to the updatable columns |
| CsvImport.UpdateKeepsEvents | src/app/actions/import.ts:140-150 | the update branch keeps every event up to description, category, booking URL and a time on the same day |
| CsvImport.CreateKeepsEvents | src/app/actions/import.ts:151-162 | the create branch keeps every existing event |
| CsvImport.FirstNamedUnique | src/app/actions/import.ts:96-98 | the first venue of a name is unique |
| CsvImport.FirstNamedGrows | src/app/actions/import.ts:96-112 | the first venue of a name stays the first as the import adds venues |
| CsvImport.UnknownNameGrows | src/app/actions/import.ts:100-110 | a name with no venue whose placeholder e-mail is taken stays in that state as the import proceeds |
| CsvImport.SettledGrows | src/app/actions/import.ts:63-170 | a line already reflected in the store stays reflected as later lines are imported |
| CsvImport.NoMatchUnsettled | src/app/actions/import.ts:129-140 | a line with a valid date whose venue has no event of that title on that day is not yet reflected |
| CsvImport.FindOrCreateVenue | src/app/actions/import.ts:96-112 | the first venue of the name is used; otherwise a placeholder venue with the slug e-mail is created, unless that e-mail is taken, in which case there is no venue and nothing changes |
| CsvImport.UpsertEvent | src/app/actions/import.ts:124-163 | when the venue has an event of that title on that day, exactly one such event gets the line's description, category, booking URL and date and every other event is unchanged; otherwise exactly one event with the line's columns is added under a fresh id |
| CsvImport.SaveEvent | src/app/actions/import.ts:114-164 | a missing date or one whose day window is out of range saves nothing and changes no event; otherwise the first venue of the name takes the upsert, and the line becomes reflected in the store; a line already reflected adds no event |
| CsvImport.Reconcile | src/app/actions/import.ts:94-169 | the line's event is saved exactly when its date is valid and its venue exists or can be created, and then by the first venue of the name with the upsert's columns; a refused line changes no event; afterwards the line is reflected in the store, and a line already reflected adds nothing |
| CsvImport.ImportLine | src/app/actions/import.ts:63-170 | blank and header lines are not counted; a line that gives no row changes nothing and is counted as an error; the line counts as an event saved exactly when its key is usable and its venue exists or can be created; afterwards the line is reflected in the store |
| CsvImport.ImportAt | src/app/actions/import.ts:63-170 | one pass of the loop counts the line exactly when it is not blank or the header, counts it as an event saved exactly when the line can be saved against the venues before it, and leaves it reflected in the store |
| CsvImport.ImportStep | src/app/actions/import.ts:63-170 | after importing one more line, every line so far is reflected, and a file already reflected leaves the store's keys alone |
| CsvImport.ImportLines | src/app/actions/import.ts:63-170 | events created plus errors equals the data lines; events created lie between the usable lines of venues the store had and all usable lines; venues created are counted exactly; every line is reflected afterwards; a file already reflected creates nothing |
| CsvImport.ImportEventsFromCsv | src/app/actions/import.ts:50-179 | without a file the result is the "No file uploaded" error and nothing changes; otherwise the message reports the counts of the loop, with the same bounds on events created |
| CsvImport.ImportTwice | src/app/actions/import.ts:50-179 | importing the same file a second time creates no venue and no event and counts every data line again |
| EventActions.NullIfEmpty | src/app/actions/events.ts:39 | `x \|\| null`: an empty booking URL becomes null and any other is kept |
| EventActions.BaseData | src/app/actions/events.ts:32-40 | the row data: the category defaults to "General", a group id is present exactly when the event recurs, and the booking URL is null when empty |
| EventActions.InstanceDates | src/app/actions/events.ts:52-73 | the instance dates are the start followed by the weekly or monthly offsets |
| EventActions.InstanceCount | src/app/actions/events.ts:53-73 | a weekly event has 13 instances, a monthly one 7 and any other 1 |
| EventActions.AddInstance | src/app/actions/events.ts:45-50 | one instance is added under a fresh id, or the store is unchanged when the date is invalid or the venue is missing |
| EventActions.CreateOffsets | src/app/actions/events.ts:55-72 | the loop creates the offsets in order and stops at the first one the store rejects, keeping the earlier ones |
| EventActions.ExpandRecurrence | src/app/actions/events.ts:43-73 | the store gains exactly the created instances, one per leading instance date under fresh ids, with every other event unchanged; all of them are created exactly when nothing is rejected |
| EventActions.CreateEvent | src/app/actions/events.ts:9-84 | no `venue_id` cookie gives "Unauthorized", and a missing title or date gives "Missing Required Fields", both before any write; otherwise the instances are created in order and the result redirects exactly when all are created |
| EventActions.DashboardOf | src/app/actions/events.ts:127-133 | the administrator returns to the platform dashboard and a venue owner to the venue dashboard |
| EventActions.IsAdmin | src/app/actions/events.ts:89 | the administrator is the platform cookie or a development build |
| EventActions.Owns | src/app/actions/events.ts:106-110 | an owner may edit an event that exists and belongs to the venue of its cookie; see EventActions.UpdateEvent |
| EventActions.UpdateEvent | src/app/actions/events.ts:86-134 | only a signed-in owner of the event, or the administrator, may edit it; a failure changes nothing; a success replaces only the edited columns and redirects to the caller's dashboard |
| EventActions.Remaining | src/app/actions/events.ts:146-153 | the events left after `deleteMany` are exactly those not selected by id and ownership |
| EventActions.RemainingIdempotent | src/app/actions/events.ts:146-153 | deleting the same selection twice is the same as deleting it once |
| EventActions.RemainingSparesOthers | src/app/actions/events.ts:146-149 | an event not listed, or owned by another venue when the caller is an owner, survives unchanged |
| EventActions.DeleteEvents | src/app/actions/events.ts:136-160 | anyone not signed in is refused with nothing deleted; the administrator deletes every listed event, and an owner only its own |
| EventsPage.BuildWhere | src/app/events/page.tsx:13-27 | the filter starts at now, and searches text and category only when those parameters are non-empty |
| EventsPage.Selects | src/app/events/page.tsx:13-27 | an event matches when it is upcoming, its title, description or venue name contains the text if one is given, and its category is the chosen one if one is given; see EventsPage.FiltersNarrow |
| EventsPage.FiltersNarrow | src/app/events/page.tsx:13-27 | with no text and no category every upcoming event matches, and dropping the text or the category never loses a match |
| EventsPage.Matching | src/app/events/page.tsx:29-30 | the matching events are exactly those the filter selects |
| EventsPage.EarliestFirst | src/app/events/page.tsx:31 | the ordering lists every event exactly once, earliest first |
| EventsPage.MatchingValues | src/app/events/page.tsx:29-30 | an event is among the matches exactly when it is listable under the filter |
| EventsPage.Search | src/app/events/page.tsx:29-33 | the page lists exactly the events the filter selects, earliest first |
| EventsPage.WithVenues | src/app/events/page.tsx:32 | each listed event is paired with its own venue, in order |
| EventsPage.SearchComplete | src/app/events/page.tsx:13-33 | a stored event is listed exactly when the filter selects it, and no listed event is in the past |
| EventsPage.Categories | src/app/events/page.tsx:35-38 | the category options are exactly the categories some event has |
| EventsPage.ListedCategoriesOffered | src/app/events/page.tsx:29-38 | every listed event's category is one of the options |
| Dashboard.Toggled | src/app/platform/dashboard/client.tsx:68-73 | toggling an id selects it exactly when it was not selected and leaves every other id as it was |
| Dashboard.ToggleTwice | src/app/platform/dashboard/client.tsx:68-73 | toggling the same id twice restores the selection |
| Dashboard.FilteredIdsDistinct | src/app/platform/dashboard/client.tsx:84-93 | filtering events with distinct ids gives events with distinct ids |
| Dashboard.SelectLabel | src/app/platform/dashboard/client.tsx:244 | the button reads "Deselect All" exactly when as many events are selected as are shown, and "Select All" otherwise |
| Dashboard.ToggleAllAsWritten | src/app/platform/dashboard/client.tsx:75-81 | as written, the button clears the selection when its size equals all events, otherwise it selects all events, including hidden ones |
| Dashboard.ToggleAllContradictsLabel | src/app/platform/dashboard/client.tsx:75-81 | with one of two events shown and selected, the button reads "Deselect All" but selects both events |
| Dashboard.ToggleAll | src/app/platform/dashboard/client.tsx:75-81 | corrected: the button does what its label says, clearing the selection or selecting exactly the shown events |
| Dashboard.AllFiltersOff | src/app/platform/dashboard/client.tsx:84-93 | with every filter at "all", every event is shown |
| Dashboard.Shown | src/app/platform/dashboard/client.tsx:84-93 | an event is shown when each of the month, category and venue filters is off or matches it; see Dashboard.Board.FilteredEvents |
| Dashboard.Selection | src/app/platform/dashboard/client.tsx:134 | the selected events are exactly the events whose id is selected, in the order of the events |
| Dashboard.SelectionOrderIrrelevant | src/app/platform/dashboard/client.tsx:134 | the order in which events were ticked does not change the selected list |
| Dashboard.LessIrreflexive | src/app/platform/dashboard/client.tsx:96-97 | the sort order never places a string before itself |
| Dashboard.LessTransitive | src/app/platform/dashboard/client.tsx:96-97 | the sort order is transitive |
| Dashboard.LessTotal | src/app/platform/dashboard/client.tsx:96-97 | any two different strings are ordered one way or the other |
| Dashboard.SortedIsDistinct | src/app/platform/dashboard/client.tsx:96-97 | a strictly sorted list has no duplicates |
| Dashboard.Insert | src/app/platform/dashboard/client.tsx:96-97 | inserting into a strictly sorted list keeps it strictly sorted and adds exactly that value |
| Dashboard.SortedUnique | src/app/platform/dashboard/client.tsx:96-97 | `Array.from(new Set(xs)).sort()` is strictly sorted and holds exactly the values of `xs` |
| Dashboard.SortedUniqueIsCanonical | src/app/platform/dashboard/client.tsx:96-97 | two strictly sorted lists with the same values are equal, so the option list does not depend on event order |
| Dashboard.MonthAt | src/app/platform/dashboard/client.tsx:103 | `new Date(y, m + i, 1)` carries the month into the year, keeping it between 1 and 12 |
| Dashboard.MonthsConsecutive | src/app/platform/dashboard/client.tsx:99-107 | the first option is the current month and each later one is the month after its predecessor |
| Dashboard.MonthOptions | src/app/platform/dashboard/client.tsx:99-107 | the loop yields twelve keys of the form "YYYY-MM", one for each month from now on |
| Dashboard.SocialLinesAppend | src/app/platform/dashboard/client.tsx:152-155 | the event lines of two lists are the lines of each list in turn |
| Dashboard.SocialHeader | src/app/platform/dashboard/client.tsx:151 | the post starts with the title and subtitle between party poppers, then a blank line; see Dashboard.Board.GenerateSocialText |
| Dashboard.SocialLine | src/app/platform/dashboard/client.tsx:152-155 | one line per event: the calendar emoji, the day label, the title and the venue name; see Dashboard.SocialLinesAppend |
| Dashboard.Board.constructor | src/app/platform/dashboard/client.tsx:36-50 | the screen opens with nothing selected, every filter at "all", the default title and subtitle, and no delete in progress |
| Dashboard.Board.FilteredEvents | src/app/platform/dashboard/client.tsx:84-93 | the shown events are exactly the events that pass the month, category and venue filters, in their original order, with distinct ids |
| Dashboard.Board.UniqueCategories | src/app/platform/dashboard/client.tsx:96 | the category options are strictly sorted and are exactly the events' categories |
| Dashboard.Board.UniqueVenues | src/app/platform/dashboard/client.tsx:97 | the venue options are strictly sorted and are exactly the events' venue names |
| Dashboard.Board.SelectedEvents | src/app/platform/dashboard/client.tsx:134 | the selected events are exactly the events whose id is selected, in the order of the events |
| Dashboard.Board.ToggleEvent | src/app/platform/dashboard/client.tsx:68-73 | the handler toggles that id in the selection |
| Dashboard.Board.ToggleAllVisible | src/app/platform/dashboard/client.tsx:75-81 | the handler applies the corrected toggle to the shown events |
| Dashboard.Board.ToggleAllEvents | src/app/platform/dashboard/client.tsx:75-81 | the handler as written: it applies the toggle that compares with, and selects, all events |
| Dashboard.Board.ClearFilters | src/app/platform/dashboard/client.tsx:109-113 | every filter returns to "all" |
| Dashboard.Board.BulkDelete | src/app/platform/dashboard/client.tsx:115-132 | a declined confirmation changes nothing; a confirmed one clears the selection, and the store loses the selected events when the platform cookie is present |
| Dashboard.Board.GenerateSocialText | src/app/platform/dashboard/client.tsx:149-158 | with no selection the text is empty; otherwise it is the header, one line per selected event in list order, and the footer |
| MediaActions.NewestFirst | src/app/actions/media.ts:14-18 | the ordering lists every media row exactly once, newest first |
| MediaActions.OfType | src/app/actions/media.ts:9 | the `where` keeps exactly the rows of that type |
| MediaActions.AllMedia | src/app/actions/media.ts:14-18 | `getAllMedia` lists every row once, newest first |
| MediaActions.MediaByType | src/app/actions/media.ts:7-12 | `getMediaByType` lists exactly the rows of that type, newest first |
| MediaActions.NewestFirstUnique | src/app/actions/media.ts:10 | two newest-first lists of the same rows are equal, so the order is fully determined |
| MediaActions.KeepType | src/app/platform/media/client.tsx:42 | the client filter keeps exactly the rows of that type |
| MediaActions.KeepTypeOrdered | src/app/actions/media.ts:7-18 | filtering a newest-first list keeps it newest first |
| MediaActions.ByTypeIsFilteredAll | src/app/actions/media.ts:7-18 | the server's typed listing equals the full listing filtered by type on the client |
| MediaActions.DeleteMedia | src/app/actions/media.ts:20-32 | a missing row or a blob fault throws and changes nothing; otherwise the row and its blob are removed |
| MediaActions.UpdateMediaLabel | src/app/actions/media.ts:34-40 | a missing row throws and changes nothing; otherwise only that row's label is set |
| MediaLibrary.KeepTypeAppend | src/app/platform/media/client.tsx:45 | filtering a prepended list is the filtered new item followed by the filtered old list |
| MediaLibrary.Count | src/app/platform/media/client.tsx:111 | a type's count is the number of rows of that type and never exceeds the total, and the "all" count is the total |
| MediaLibrary.KindsOf | src/app/platform/media/client.tsx:111 | the type of each row, one per row |
| MediaLibrary.KeepTypeCounts | src/app/platform/media/client.tsx:111 | the rows of a type number as many as the occurrences of that type among the rows' types |
| MediaLibrary.CountsAddUp | src/app/platform/media/client.tsx:111 | when every row has one of the four types, the four counts add up to the total |
| MediaLibrary.FormatBytes | src/app/platform/media/client.tsx:29-33 | the unit is bytes below 1024, KB below 1024 * 1024 and MB above, and a byte count is shown with the " B" suffix |
| MediaLibrary.ExactReadsBack | src/app/platform/media/client.tsx:30 | a size below 1 KB is shown as its exact decimal value followed by " B" |
| MediaLibrary.Library.constructor | src/app/platform/media/client.tsx:36-39 | the screen opens on the given media, with the "all" filter and nothing being deleted |
| MediaLibrary.Library.Filtered | src/app/platform/media/client.tsx:42 | the shown rows are all rows under "all", otherwise exactly the rows of the chosen type, and their number is the button's count |
| MediaLibrary.Library.SetFilter | src/app/platform/media/client.tsx:107 | the filter becomes the chosen type |
| MediaLibrary.Library.HandleUploaded | src/app/platform/media/client.tsx:44-46 | the upload is put first, and the shown rows gain it first when it has the chosen type |
| MediaLibrary.Library.HandleDelete | src/app/platform/media/client.tsx:48-63 | a failed delete leaves the list and the store unchanged; a successful one removes exactly that id from the list; either way nothing is left marked as being deleted |
| Middleware.Gate | src/middleware.ts:4-36 | the two login pages pass; any other path under "/admin" without a `venue_id` cookie goes to the venue login, any other path under "/platform" without the platform cookie goes to the platform login, and every other path passes |
| Middleware.PrefixesDisjoint | src/middleware.ts:8-22 | no path falls under both prefixes |
| Middleware.Route | src/middleware.ts:38-40 | only paths the matcher covers reach the gate; every other path passes |
| Middleware.SessionsDoNotCross | src/middleware.ts:14-33 | a venue cookie does not open the platform pages and the platform cookie does not open the venue pages |
| Middleware.AdministratorOnlyGatedByPrefix | src/middleware.ts:8-40 | "/administrator" would be gated by the prefix test, but the matcher never routes it to the gate |
| PlatformAuth.Configured | src/app/actions/platform-auth.ts:8-11 | each credential is taken from the environment when set and non-empty, otherwise from the fallback |
| PlatformAuth.PlaceholderHashAdmitsNoOne | src/app/actions/platform-auth.ts:10-22 | with no hash configured, the placeholder hash admits no password |
| PlatformAuth.PlatformLogin | src/app/actions/platform-auth.ts:13-37 | missing fields and wrong credentials are refused with the source's messages and no cookie; correct ones set the platform cookie and redirect to the platform dashboard |
| PlatformAuth.SignInOpensPlatform | src/app/actions/platform-auth.ts:27-31 | the cookie set at sign-in satisfies the platform gate |
| PlatformAuth.PlatformLogout | src/app/actions/platform-auth.ts:39-43 | sign-out deletes only the platform cookie and redirects to the platform login |
| PlatformEvents.DeleteEventAsAdmin | src/app/actions/platform-events.ts:7-22 | without the platform cookie nothing is deleted; with it the event is removed, and the result is success exactly when it existed |
| PlatformEvents.DeleteEventsAsAdmin | src/app/actions/platform-events.ts:24-43 | without the platform cookie nothing is deleted; with it every listed event is removed |
| PlatformEvents.AdminRemovesListed | src/app/actions/platform-events.ts:33-37 | the administrator's bulk delete removes exactly the listed ids |
| PlatformVenues.CreateVenue | src/app/actions/platform-venues.ts:8-48 | missing fields and a taken e-mail are refused with nothing created; otherwise exactly one venue is added, holding the hashed password |
| PlatformVenues.WithoutVenue | src/app/actions/platform-venues.ts:60 | the events left are exactly those of other venues, unchanged |
| PlatformVenues.CascadeIsolated | src/app/actions/platform-venues.ts:60-61 | after the cascade the deleted venue has no events and every other venue keeps all of its own |
| PlatformVenues.NothingToCascade | src/app/actions/platform-venues.ts:58-68 | for a venue that does not exist, the cascade removes nothing |
| PlatformVenues.DeleteVenue | src/app/actions/platform-venues.ts:50-69 | without the platform cookie nothing changes; a missing venue fails with nothing changed; otherwise the venue and its events go |
| PlatformVenues.Edited | src/app/actions/platform-venues.ts:84-93 | the edit writes the five submitted columns, including the password exactly as submitted, and keeps the id and creation time |
| PlatformVenues.UpdateVenue | src/app/actions/platform-venues.ts:71-99 | as written: without the platform cookie the result is "Unauthorized"; the update succeeds exactly when the venue exists and the e-mail is free, and then stores the submitted columns |
| PlatformVenues.PlainPasswordLocksOut | src/app/actions/platform-venues.ts:84-93 | after an edit that stores a password shorter than a bcrypt hash, the owner can no longer sign in with it |
| PlatformVenues.UpdateVenueHashed | src/app/actions/platform-venues.ts:71-99 | corrected: the same outcomes; a password left as the prefilled stored value is kept, so every password that signed in before still does, and a changed password is stored hashed and signs in afterwards |
| PlatformVenues.ResetVenuePassword | src/app/actions/platform-venues.ts:101-121 | without the platform cookie, with a new password shorter than 8 UTF-16 code units or with a missing venue, the action throws and changes nothing; otherwise only that venue's password hash changes |
| PlatformVenues.ResetOpensSignIn | src/app/actions/platform-venues.ts:113-117 | after a reset the owner signs in with the new password |
| ChangePassword.InputError | src/app/actions/change-password.ts:13-23 | the form passes exactly when every field is filled, the two new passwords agree and they are at least 8 UTF-16 code units long; each failure carries the source's message |
| ChangePassword.AstralPasswordLongEnough | src/app/actions/change-password.ts:21 | four emoji are four characters but eight code units, and pass the length rule |
| ChangePassword.ChangePassword | src/app/actions/change-password.ts:8-55 | invalid input, no `venue_id` cookie, an unknown venue and a wrong current password are refused with nothing changed; otherwise only that venue's password hash changes |
| ChangePassword.ChangeSwapsSignIn | src/app/actions/change-password.ts:42-52 | after the change the new password signs the owner in and the old one no longer does |
| VenueAuth.Login | src/app/actions/auth.ts:8-34 | missing fields and wrong credentials are refused with no cookie; correct credentials set the `venue_id` cookie to the owner's venue and redirect to the venue dashboard |
| VenueAuth.Logout | src/app/actions/auth.ts:36-40 | sign-out deletes only the `venue_id` cookie and redirects home |
| Authorize.VenueUser | src/auth.ts:59-65 | the signed-in venue user carries the venue's id, name and owner e-mail and the "venue" role |
| Authorize.WellFormed | src/auth.ts:47-49 | the credentials schema: an e-mail that passes the e-mail check and a password of at least 6 UTF-16 code units |
| Authorize.Authorize | src/auth.ts:29-71 | an administrator attempt without a master password is a configuration error and otherwise succeeds exactly when the password equals it; a venue attempt succeeds exactly for well-formed credentials of an existing owner |
| Authorize.RolesSeparated | src/auth.ts:29-71 | the administrator role comes exactly from an attempt with the administrator flag, and a venue user's id is that of an existing venue |
| Authorize.Jwt | src/auth.config.ts:8-14 | a sign-in copies the user's role and venue into the token; otherwise the token is unchanged |
| Authorize.SessionCallback | src/auth.config.ts:15-21 | with a token and a session user, the role and venue are copied from the token; the user's name and e-mail are never touched |
| Authorize.SignInSession | src/auth.config.ts:7-22 | an accepted sign-in reaches the session with the user's role and venue |
| Reminders.ExpectedHeader | src/app/api/cron/reminders/route.ts:6 | the expected header is "Bearer " plus the secret, and "Bearer undefined" when no secret is set |
| Reminders.BearerAcceptedAsWritten | src/app/api/cron/reminders/route.ts:6 | as written: the header must equal the expected header; see Reminders.UnsetSecretAdmitsGuess |
| Reminders.BearerAccepted | src/app/api/cron/reminders/route.ts:5-8 | corrected: a non-empty secret must be set and the header must carry exactly it; see Reminders.BearerNeedsSecret |
| Reminders.UnsetSecretAdmitsGuess | src/app/api/cron/reminders/route.ts:5-8 | as written, with no secret set the header "Bearer undefined" is accepted |
| Reminders.BearerNeedsSecret | src/app/api/cron/reminders/route.ts:5-8 | corrected: with no secret every request is refused, and with a secret the check agrees with the one as written |
| Reminders.StaleVenues | src/app/api/cron/reminders/route.ts:12-20 | a venue is stale exactly when none of its events is at or after now |
| Reminders.StaleMeansNothingAhead | src/app/api/cron/reminders/route.ts:12-20 | a venue with no events is stale, and one with an upcoming event is not |
| Reminders.FindStale | src/app/api/cron/reminders/route.ts:12-20 | the query returns each stale venue exactly once |
| Reminders.Emails | src/app/api/cron/reminders/route.ts:24-28 | one reminder goes to each listed venue's owner, in order |
| Reminders.EmailsDistinct | src/app/api/cron/reminders/route.ts:24-28 | no owner is sent two reminders |
| Reminders.Get | src/app/api/cron/reminders/route.ts:4-39 | a wrong header gives 401 and a store fault gives 500; otherwise the response counts the stale venues and lists one owner e-mail for each |
| Upload.Rejection | src/app/api/upload/route.ts:12-25 | an upload is rejected exactly when there is no file, it is not an image, or it exceeds 10 MB, each with the source's message |
| Upload.SizeBoundary | src/app/api/upload/route.ts:22-25 | an image of exactly 10 MB is accepted and one byte more is refused |
| Upload.KindOf | src/app/api/upload/route.ts:9 | the type field defaults to "general" when empty |
| Upload.LabelOf | src/app/api/upload/route.ts:10 | the label is null exactly when the field is empty |
| Upload.BlobPath | src/app/api/upload/route.ts:28 | the blob path lies under "media/" followed by the type |
| Upload.Post | src/app/api/upload/route.ts:5-49 | a rejected file gives 400 with its message and a blob fault gives 500, both storing nothing; otherwise exactly one media row and one blob are added, with the file's columns |

## Left out

- Password hashing: bcrypt is an abstract function `hash` on passwords. `bcrypt.compare` is "the stored value equals the hash of the password", and salts and cost factors are not modelled. The one fact the model uses about real hashes is that they are 60 characters long (`BcryptShaped`).
- The clock, `NODE_ENV`, environment variables, form fields, cookies and the blob store's URLs are parameters.
- Faults of the store and of the blob service are parameters only of Reminders.Get (`storeFails`) and of Upload.Post, MediaActions.DeleteMedia and MediaLibrary.Library.HandleDelete (`blobFails`). Elsewhere the store fails only where the model can name why: a missing row, a taken e-mail or an invalid date. Arbitrary database faults caught at src/app/actions/events.ts:74 and 156, src/app/actions/platform-events.ts:19 and 40, and src/app/actions/platform-venues.ts:44, 65 and 96, and a failure of the media insert after the blob upload (src/app/api/upload/route.ts:33-47), are not modelled.
- Time zones: the local time zone is taken to be UTC, so local and universal time coincide.
- `new Date(string)`, used by `createEvent` and `updateEvent`, is an opaque parser parameter. So are date-fns `addWeeks` and `addMonths`.
- DateTime.ToNumber: only an optional sign followed by decimal digits is read as a number. JavaScript's `Number` also reads decimals, exponents, hexadecimal and `Infinity`, which the model reads as NaN, so a field such as "1.5" is rejected here.
- Common.Lower: lowers only the ASCII capital letters; JavaScript's `toLowerCase` also lowers other alphabets.
- Sorting compares characters by code point; JavaScript compares UTF-16 code units. The two differ only outside the Basic Multilingual Plane.
- Prisma's `contains` is case-sensitive in the model. The real behaviour depends on the database collation.
- MediaLibrary.FormatBytes: states the unit and the exact byte count, but not the one-decimal figure `toFixed(1)` prints for KB and MB.
- The month option labels and the social post's day labels come from `toLocaleDateString`. The model takes these labels as parameters and states nothing about their text.
- The import matches events with `findFirst` and no `orderBy`. The model lets it return any matching event, and proves the import's properties for every choice.
- Store.RecordStore.FindFirstVenueNamed: Prisma's `findFirst({ where: { name } })` (src/app/actions/import.ts:96-98) has no `orderBy`, and venue names are not unique, so the database may return any venue of that name. The model fixes it to the earliest-created one.
- CsvImport.ImportTwice: the second import adds nothing only because the venue lookup returns the same venue of a name every time (the earliest-created). With two venues of one name and a lookup that returns either, a second import could add an event under the other venue.
- CsvImport.ImportLines: the number of events saved is bounded, not computed: at least the usable lines of venues the store already had, at most all usable lines. Whether a line of a new venue name is saved depends on the placeholder venues earlier lines created; each line's own outcome is stated exactly by CsvImport.ImportAt.
- CsvImport.ImportEventsFromCsv: states the same bounds on events created as CsvImport.ImportLines, for the same reason.
- MediaActions.NewestFirstUnique: the order is fully determined only because the model's clock gives every row a distinct creation time. A real `createdAt` can tie within a millisecond, and the database then leaves the order of the tied rows open.
- CsvImport.ImportLines: the catch around each line is modelled only for the faults the model can name: a taken placeholder e-mail and a date outside the representable range. Arbitrary database faults are not modelled.
- EventActions.CreateEvent: the failure message is "Failed to create event: " plus the exception's text. The model keeps the prefix only.
- PlatformVenues.CreateVenue: the catch branch ("Failed to create venue. Email might be in use.") cannot arise, because the e-mail is checked first and actions do not run concurrently.
- Concurrency between requests, `revalidatePath`, console logging, and the reminder e-mail text are not modelled.
- Dashboard.Board.BulkDelete: the `setTimeout` deferral, `alert`, the page reload and the catch path are not modelled. The dashboard's bulk delete never throws, because a refused delete returns an error object. `confirm` is the `confirmed` parameter.
- MediaLibrary.Library.HandleDelete: the `confirm` dialog and the intermediate render while `deletingId` is set are not modelled; the method starts after the owner confirms.
- The dashboard's image export (html-to-image), background and aspect-ratio pickers and custom background upload are not modelled, and neither is the media screen's copy-URL button. These are rendering and clipboard concerns.
- `getUser`'s rethrow on a database fault and the `zod` e-mail check are not modelled: the e-mail check is the `isEmail` parameter of `Authorize.Authorize`.
- Reminders.Get: uses the corrected bearer check. The check as written is `Reminders.BearerAcceptedAsWritten`, and the finding below shows where they differ.
- Integers are unbounded. JavaScript numbers are doubles, which matters only for counts and sizes beyond 2^53.

## Findings

| source | as written | input that shows it | evidently intended | confidence | as-written member | corrected member |
|---|---|---|---|---|---|---|
| src/app/actions/platform-venues.ts:84-93 | `updateVenue` writes the submitted password into the password column unhashed; the edit form prefills that field with the stored hash (src/app/platform/venues/client.tsx:119), so only a typed-in password is affected | an edit that replaces the prefilled value with the password "secret123": sign-in then compares it against the stored "secret123" as if it were a bcrypt hash, and fails for every password | keep the prefilled value as it is, and hash a password that was typed in, as `createVenue` and `resetVenuePassword` do | not executed | PlatformVenues.PlainPasswordLocksOut | PlatformVenues.UpdateVenueHashed |
| src/app/api/cron/reminders/route.ts:6 | with `CRON_SECRET` unset, the expected header is the string "Bearer undefined" | the header "Bearer undefined" on a deployment without the secret passes the check | refuse every request while no secret is configured | not executed | Reminders.UnsetSecretAdmitsGuess | Reminders.BearerNeedsSecret |
| src/app/platform/dashboard/client.tsx:75-81 | `toggleAll` compares the selection with all events and selects all events, while its label (line 244) compares with the shown events | two events, a filter that shows one, and that one selected: the button reads "Deselect All" but selects both, including the hidden one | compare with, and select, the shown events | not executed | Dashboard.ToggleAllContradictsLabel | Dashboard.ToggleAll |
