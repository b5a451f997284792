# Voucher report generation: a Dafny model of its core

The repository is a batch job. It runs on the standby node of an
Oracle pair. It decrypts the stored database password, runs one count query
per card table, and writes each result to a CSV file and a text file. A
companion tool encrypts the password for `config.ini`.

This project models the parts of that job that make decisions or compute
values:

- **The credential cipher** (`cipher.dfy`, module `Cipher`). `encrypt` in
  password_encryption.py and `decrypt` in auto_voucher_report_generation.py
  form a running-key cipher modulo 127. Both programs are Python 2, so a
  string is a string of bytes, and a character is modelled as its code in
  0..255 (`Byte`). `Encrypted` and `Decrypted` define the transforms
  position by position. The methods `Encrypt` and `Decrypt` are the
  programs' append loops, and each is proved to compute its function. A
  non-empty message with an empty key raises `ZeroDivisionError` in the
  source, so the functions and methods require a key whenever the message is
  non-empty. Python's `%` with divisor 127 is never negative, which matches
  Dafny's `%`.
- **The password tool** (`password_tool.dfy`, module `PasswordTool`). This is
  `main` of password_encryption.py after the password has been read. It
  refuses an empty password and otherwise encrypts it under the fixed
  passphrase "password encryption".
- **The count query** (`card_query.dfy`, module `CardQuery`). This is the
  meaning of the SQL text in `card_count`, as a pure function over a
  table's rows. `today` stands for `trunc(sysdate)` when that query runs, and timestamps are
  integer seconds, so `trunc(sysdate - 1)` is `today - 86400`.
- **The run's control decisions** (`report_run.dfy`, module `ReportRun`).
  This covers the table loop of `card_count` and the gate at the start of
  `main`. Each query's outcome is given as a parameter: the table's rows, or
  a database error. The peer probe is given as its integer result. The
  report files are modelled by their contents: the CSV file is opened in
  append mode and keeps every report written to it; the text file is
  rewritten each time. The run also returns the sequence of its observable
  steps.

Three facts about the code that the model keeps:

- No table is sorted descending. Every report keeps the query's ascending
  CARD_TYPE order, and the loop only routes tables by name.
- A table whose query returns no rows is still written, with an empty
  report. `read_sql` always returns a DataFrame, so the "No records" branch
  never runs.
- The cipher's round trip holds exactly when every plaintext code is below
  127, even when the sum before reduction exceeds 126 (`Cipher.RoundTrip`).

## Model

| member | source | states |
|---|---|---|
| `Cipher.Encrypted` | password_encryption.py:15-20 | The ciphertext has the message's length. Every output code lies in 0..126. The empty message encrypts to the empty string with any key. |
| `Cipher.Decrypted` | auto_voucher_report_generation.py:47-52 | The plaintext has the ciphertext's length, and every output code lies in 0..126. |
| `Cipher.Encrypt` | password_encryption.py:4-20 | The `encrypt` loop returns exactly `Encrypted(key, msg)`: character `i` is `(msg[i] + key[i % len(key)]) % 127`. |
| `Cipher.Decrypt` | auto_voucher_report_generation.py:46-52 | The `decrypt` loop returns exactly `Decrypted(key, enc)`: character `i` is `(enc[i] - key[i % len(key)]) % 127`. |
| `Cipher.EncryptedPrefix` | password_encryption.py:16-19 | Encrypting `m1 + m2` begins with the encryption of `m1`. |
| `Cipher.RoundTrip` | password_encryption.py:16-19 | `Decrypted(k, Encrypted(k, m)) == m` holds if and only if every code of `m` is below 127. |
| `Cipher.ReverseRoundTrip` | auto_voucher_report_generation.py:48-51 | `Encrypted(k, Decrypted(k, c)) == c` holds if and only if every code of `c` is below 127. |
| `Cipher.HighByteLost` | password_encryption.py:19 | Byte 200 comes back as 73 under any key, and bytes 0 and 127 encrypt alike. |
| `PasswordTool.EncryptPassword` | password_encryption.py:33-41 | An empty password is refused before `encrypt` runs. Any other password is encrypted under the fixed passphrase. Decrypting the returned ciphertext under that passphrase gives the password back exactly when its codes are below 127. |
| `CardQuery.Count` | auto_voucher_report_generation.py:77-82 | A `COUNT(case when ...)` column never exceeds the number of rows in its CARD_TYPE group. |
| `CardQuery.InsertKey` | auto_voucher_report_generation.py:92-93 | Adding a key to an ascending list of distinct keys keeps it ascending and distinct. The result holds exactly the old keys plus the new one. |
| `CardQuery.GroupKeys` | auto_voucher_report_generation.py:91-93 | The group keys are strictly ascending. They are exactly the CARD_TYPE values of rows with a non-NULL SERIAL_NO. |
| `CardQuery.Query` | auto_voucher_report_generation.py:74-93 | The result has one row per CARD_TYPE that has a row with a SERIAL_NO, and no other rows. Rows are in strictly ascending CARD_TYPE order. Each row holds the counts of its own group. |
| `CardQuery.SixCountsAddUp` | auto_voucher_report_generation.py:83-88 | The six category counts add up to the number of group rows in some category, so no row is counted twice in TOTAL. |
| `CardQuery.DailyUsedWithinTotalUsed` | auto_voucher_report_generation.py:89 | DAILY_USED is at most TOTAL_USED: a card used during the previous day was used before today. |
| `CardQuery.ReportCounters` | auto_voucher_report_generation.py:77-89 | For every output row, TOTAL is ACTIVATED + TOTAL_USED + DEACTIVATED + EXPIRED + NEW + BOOKEDIN. TOTAL counts the categorized rows, does not include DAILY_USED, and is at most the group size. DAILY_USED is at most TOTAL_USED. |
| `CardQuery.CountersIgnoreRowsOutsideTheirWindow` | auto_voucher_report_generation.py:78-89 | Rows used, expired or generated at or after `today` leave TOTAL_USED, EXPIRED and NEW unchanged, and DAILY_USED too. Rows used before the previous day leave DAILY_USED unchanged. |
| `CardQuery.UntimedCountersIgnoreToday` | auto_voucher_report_generation.py:77-82 | ACTIVATED, DEACTIVATED and BOOKEDIN are the same whatever day the query runs. |
| `CardQuery.NullSerialIgnored` | auto_voucher_report_generation.py:91 | Inserting a row with a NULL SERIAL_NO anywhere in a table leaves the whole result unchanged. |
| `ReportRun.FirstError` | auto_voucher_report_generation.py:69-120 | The loop stops at the first table whose query fails: every earlier query succeeded, and that query failed. |
| `ReportRun.CardCount` | auto_voucher_report_generation.py:69-120 | Every table before the first failure is fetched and written to the pair its name selects: UCMS_CARDS to the first pair, any other name to the second. Each table is counted against its own query's day. The failing table is fetched and not written. No later table is touched. `failedAt` names the failing table. |
| `ReportRun.EmittedPerPair` | auto_voucher_report_generation.py:102-112 | Each file pair receives exactly the reports routed to it. Its CSV gains all of them in order. Its text file holds the last one, or is untouched if none was routed to it. |
| `ReportRun.WritesRoutedByName` | auto_voucher_report_generation.py:102-112 | Every write step is for a listed table. It goes to the first pair exactly when the table is named `UCMS_CARDS`. |
| `ReportRun.ErrorAbandonsLaterTables` | auto_voucher_report_generation.py:73-120 | A query error on table `j` stops the loop at `j` or earlier, so at most `2j + 1` steps run. If all earlier queries succeeded, every earlier table is written and `j` is fetched last. |
| `ReportRun.RunReportJob` | auto_voucher_report_generation.py:139-175 | A missing config.ini ends the run before any step. A probe result of 0 ends it right after the probe, before decryption or any query. Otherwise the stored password is decrypted with the shared passphrase and `card_count` runs; the run reports the files it wrote and, if a query failed, the position of the failing table. No table is fetched unless the config was found and the probe failed. |

## Left out

- Database stack: pandas `read_sql`, the SQLAlchemy engine and cx_Oracle are foreign code. Each query's outcome is a parameter, and `CardQuery.Query` gives the SQL's meaning.
- Building the engine: `create_engine` does not connect, so connection failures surface from `read_sql`. An error raised by `create_engine` itself, which would skip every table, is not modelled.
- Exceptions other than `SQLAlchemyError`, such as a failed file write or a bad `port` value, end the process in the source. They are not modelled.
- The `isinstance(df, pd.DataFrame)` test and its "No records" branch: `read_sql` always returns a DataFrame, so the branch is unreachable.
- Sockets: only the integer result of `connect_ex` is modelled.
- Plumbing: logging, `os.makedirs`, the `strftime` file and directory names, `os.environ`, ConfigParser reads, `raw_input` and `print`.
- Rendering: `to_csv` and `to_string` are not modelled. A report is kept as its rows, so the header line that `to_csv(header=True)` repeats on every append is not represented.
- Oracle dates: `sysdate` and `trunc` are replaced by an integer day. Each table's query reads the clock when it runs, so `ReportRun.CardCount` and `ReportRun.RunReportJob` take one day per table (`days[i]` for `tables[i]`). The model does not constrain these days to be non-decreasing or close together.
- SQL NULL in CARD_TYPE, CARD_STATUS and the timestamp columns. A comparison with NULL is never true in SQL. A row with a NULL status therefore counts in no column. A NULL timestamp only fails the comparisons on that column, so the row can still count in the other columns. A row with a SERIAL_NO and a NULL CARD_TYPE forms its own output group, which Oracle sorts last. The model gives every row an integer CARD_TYPE, a status string and integer timestamps, so it represents none of these NULLs.
- `CAST(CARD_TYPE AS integer)`: CARD_TYPE is modelled as an integer already. Two stored values that differ but cast to the same integer are therefore not distinguished.
- The unused `logs` argument of `card_count`, and the unused `rms_ip` and `oracle_port` settings.
- PasswordTool.EncryptPassword: the model assumes the ciphertext reaches config.ini unchanged. In the source, the user copies it from a printed Python 2 tuple, which shows an escaped repr, and ConfigParser strips surrounding whitespace when it reads the value. A ciphertext with leading or trailing blanks, such as the one for "/x", therefore does not decrypt back, and the model does not capture that.
