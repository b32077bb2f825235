# Model and proofs of the ORM, formatting, logging and reference counting libraries

The modules model the parts of the C++ sources that carry state, recursion or concurrency, and prove what they promise.
`dafny verify dfyconfig.toml` checks everything.

- **Reference counting** (`RefCounting`, `RefCountingCounts`, `RefCountingHomes`, `RefCountingInvariant`,
  `RefCountingSafety`, `RefCountingOperations`, `RefCountingChecks`, `RefCountingFaults`). Strong and weak handles over
  one block per object, as a step relation: every access to a counter, the body of a destructor, the destruction of its
  members and every release of memory is a step of its own, and the steps of any number of activities interleave. A
  strong handle may be a member of an object and then shares its memory. An invariant that counts the steps in flight
  gives the safety of every clean run: no VERIFY fires, no released memory is used, destruction and release happen once,
  nothing is resurrected, nothing leaks, and every operation ends with what it is for. Clean is a condition on three
  kinds of steps, and runs that are not clean are exactly those that break the invariant.
- **Queries** (`FlatProto`, `FlatProtoRoundTrip`, `RequestQuery`, `RequestTransform`, `RequestSelects`, `SqlTree`,
  `SqlBuilder`, `SqlReader`, `SqlStatements`). Request trees are flattened to protobuf entries with back references,
  read back, turned into builder trees with the help of the registry, and printed as SQL by a builder with a mutable
  stack. The printer is proved against a pure one, and a reader with keywords of its own recovers clauses and whole
  statements from the text, so that a condition is followed from the client's tree over the wire to the SQL text and
  back, and a SELECT to its text.
- **INSERT and UPDATE** (`Organizer`, `OrganizerInsert`, `OrganizerUpdate`, `OrganizerText`, `Decimal`). Attributes of
  several rows are aligned into columns; attribute sets are split into SET and WHERE by the primary keys. Literals are
  read back as values, UPDATE statements get a meaning on rows, and both statements are read back from their text.
- **The schema registry** (`Registry`, `RegistryTree`, `RegistryRoots`, `RegistryLinks`, `RegistryPaths`,
  `RegistryQueries`, `RegistryAnswers`, `RegistrySchema`, `Paths`). A finite schema tree is registered, by mutual
  recursion, into maps keyed by hashes. The maps are shown to hold exactly the trees, cached queries to answer from
  the trees, and INSERT and UPDATE to get from them the schema they rely on.
- **Format strings** (`FormatScan`, `FormatText`, `FormatMeaning`). The brace search under quotes and escapes, the two
  formatters, and what each placeholder shows.
- **The framed serial codec** (`SerialCodec`, `SerialStream`, `SerialValues`) and **logging** (`FileRotation`,
  `LogQueue`): a byte stream cut into arbitrary reads, a file with numbered backups, a buffer flushed by many threads.

Code that changes state is modelled by classes and methods with loops, each proved against a specification function;
the lemmas are about those functions. Protocols with several threads are state machines over their atomic steps.

Where the code does less than one would expect, the exact condition is proved, beside an input that shows the failure:

- constructors that throw and handles that are used by the destructors they call:
  `RefCountingInvariant.KeptExactly` and `RefCountingSafety.SafeExactly`, with `RefCountingFaults.PublishedThenThrown`,
  `RefCountingFaults.SelfReset`, `RefCountingFaults.AssignFromMember` and `RefCountingFaults.CopiedByItsDestructor`;
  `RefCountingSafety.NoLeak`, with `RefCountingFaults.OtherThrowDestroys`;
- text that does not tell trees apart: `SqlReader.SameTextSameTree`, with `SqlReader.NotAndSuffixCollide`;
- requests that change on the wire, or cannot be read: `FlatProtoRoundTrip.StoredUnchanged`;
  `FlatProtoRoundTrip.SucceedsExactly`, `FlatProtoRoundTrip.NeverReturnsExactly` and `FlatProtoRoundTrip.ThrowsExactly`;
- columns named twice: `OrganizerInsert.ColumnsOncePerPath` and `OrganizerInsert.RepeatedColumnIsDefault`;
- requests that are refused: `RequestTransform.TransformThrows`; names that do not parse back: `Paths.SplitOfJoined`;
- serial reads that go out of bounds: `SerialStream.StepFaultsExactly` and `SerialStream.RunFaultsExactly`, with
  `SerialStream.SplitHeaderFaults`; reads behind a reset: `SerialStream.ResetLoses`, with
  `SerialStream.ResetMakesUp`; negative temperatures: `SerialValues.FixedRoundTrip`;
- log entries out of order: `LogQueue.OrderKeptExactly` and `LogQueue.LogOrderExactly`, with `LogQueue.BatchesCanSwap`.

## Model

| member | source | states |
|---|---|---|
| RefCountingCounts.HandlesPreserved | lib/common/intrusive_ptr.h:20-100 | In every step of every activity in which no destructor uses a handle that an operation around it is in the middle of, what one activity holds or reads no other activity can write: handles under construction, assignment or destruction belong to exactly one activity and every stored pointer is to an allocated block |
| RefCountingHomes.HomesPreserved | lib/common/refcounted.h:84-90 | A clean step keeps what is known of handles that are members of the objects they live in: no operation but their destruction is under way on a member once the destructor has come to the members, and a member that is not destroyed lives in an object that is there |
| RefCountingHomes.NeverIntrudes | lib/common/intrusive_ptr.h:65-86 | So the destructor of an object, which destroys each member with its pointer as it stands even inside a reset or assignment of that member, finds no member in the middle of another operation |
| RefCountingHomes.NeverStrays | lib/common/intrusive_ptr.h:45-63 | So no step uses a handle whose memory has been released, and no assignment reads a source that has been destroyed |
| RefCountingInvariant.InvPreserved | lib/common/refcounted.cpp:8-56 | One atomic step of any activity (Ref, Unref, the load and the compare-and-swap of TryRef, WeakRef, WeakUnref, the body of a destructor, the end of the destruction of its members, a release of memory, a constructor that ends, throws a std::exception or throws anything else, a constructor or destructor that hands out handles to this) keeps the invariant of handles, counters and members and faults in no way, whatever the others are in the middle of, if the step is clean; RefCountingInvariant.KeptExactly says what that is |
| RefCountingInvariant.KeptExactly | lib/common/intrusive_ptr.h:45-119 | A step keeps the invariant if and only if it is clean: no Deallocate after a std::exception with a counter above one; no destructor that comes to the members of its object while an operation on one of them, or one that is going to read it, is under way; no destructor that takes a strong reference through the handle whose own reset or assignment has called it, or through this |
| RefCountingInvariant.RunInv | lib/common/refcounted.cpp:8-56 | The invariant holds in every state of every clean interleaving of any number of activities, handles (members of objects or not) and objects |
| RefCountingSafety.SafeExactly | lib/common/intrusive_ptr.h:45-119 | The invariant holds throughout a run if and only if every step of it is clean, as seen in the states alone (RefCounting.CleanNext) |
| RefCountingFaults.DanglingExactly | lib/common/intrusive_ptr.h:113-117 | The Deallocate after a std::exception leaves exactly as many strong and weak references to the released block as the counters exceed one |
| RefCountingFaults.DanglingFaults | lib/common/weak_ptr.h:46-50 | Destroying a weak handle to a released block touches freed memory |
| RefCountingFaults.DanglingStrongFaults | lib/common/intrusive_ptr.h:81-86 | So does destroying a strong one |
| RefCountingFaults.PublishedThenThrown | lib/common/weak_ptr.h:75-78 | There is such a run: a constructor makes a weak handle of this and throws a std::exception, and the handle touches freed memory |
| RefCountingFaults.OtherThrowDestroys | lib/common/intrusive_ptr.h:108-119 | A constructor that throws anything but a std::exception: unwinding runs the destructor on the object that was never constructed |
| RefCountingFaults.DestroyedTwice | lib/common/intrusive_ptr.h:81-86 | A destructor that destroys a member with its pointer still standing, while the count is at zero (an outer reset of that very member is inside Unref), fires the VERIFY of Unref |
| RefCountingFaults.SelfReset | lib/common/intrusive_ptr.h:81-86 | There is such a run: self_.reset() where the member self_ is the last reference to its own object |
| RefCountingFaults.SourceGone | lib/common/intrusive_ptr.h:45-63 | An assignment that comes to read its source after it has been destroyed uses memory it must not |
| RefCountingFaults.HomeGone | lib/common/intrusive_ptr.h:81-86 | An operation that comes to clear a handle whose memory has been released uses memory it must not |
| RefCountingFaults.ReleasedHandleFaults | lib/common/intrusive_ptr.h:20-86 | So does any operation that begins on such a handle or reads it |
| RefCountingFaults.AssignFromMember | lib/common/intrusive_ptr.h:45-63 | There are such runs, for the copying and the moving form: p = p->next where p is the last reference to the node |
| RefCountingFaults.UsedAgain | lib/common/intrusive_ptr.h:20-86 | From any state with the invariant: a destructor that resets, assigns or copies the handle whose own reset or assignment has called it fires the VERIFY of Unref or Ref at its next step |
| RefCountingFaults.MovedAgain | lib/common/intrusive_ptr.h:39-43 | One that moves from it leaves a handle to an object whose strong count is zero |
| RefCountingFaults.AdoptedAgain | lib/common/intrusive_ptr.h:23-29 | One that makes a strong handle of this fires the VERIFY of Ref |
| RefCountingFaults.CopiedByItsDestructor | lib/common/intrusive_ptr.h:31-37 | There is such a run: g.reset() with g the last reference to an object whose destructor copies g |
| RefCountingSafety.NoFault | lib/common/refcounted.cpp:8-56 | In no clean interleaving does a VERIFY fire, a step touch memory after its release, be it a block or a handle in it, or an assignment read a destroyed source |
| RefCountingSafety.CountersMean | lib/common/intrusive_ptr.h:23-86 | At every moment the strong counter is the number of strong references (live handles, the one New keeps while the constructor runs, activities between a counter update and the handle, a TryRef not yet wrapped) and the weak counter the number of weak references plus one, until the one destroying activity has done its own WeakUnref |
| RefCountingSafety.DestroyedAndFreedOnce | lib/common/refcounted.h:84-126 | An object is destroyed at most once, after its constructor has ended, with the strong count at zero and no strong handle left, and freed at most once, after its destructor and with no handle of either kind; only an object whose constructor threw a std::exception is freed without being destroyed |
| RefCountingSafety.DestructorSeesZero | lib/common/refcounted.h:104-109 | Whoever is about to call the destructor finds the strong count at zero and the object not yet destroyed |
| RefCountingSafety.ZeroForever | lib/common/refcounted.cpp:33-40 | Once the strong count of an object is zero it is zero in every later state of the run |
| RefCountingSafety.NoResurrection | lib/common/weak_ptr.h:59-63 | Once the strong count is zero, no strong handle to the object exists ever again and no Lock, begun before or after, obtains it |
| RefCountingSafety.NoLeak | lib/common/intrusive_ptr.h:108-119 | When all activities are idle and no handle is left, the object has been freed exactly once, and destroyed exactly once unless its constructor threw a std::exception; a never constructed object has been destroyed if and only if its constructor threw something else |
| RefCountingSafety.LockEndsRight | lib/common/refcounted.cpp:33-40 | At the step that ends it, a Lock of a weak handle that is not null leaves an empty handle if and only if the strong count is zero then; otherwise a handle to the object. RefCountingOperations.OperationEnds goes from its beginning to this end |
| RefCountingSafety.LockSucceeds | lib/common/weak_ptr.h:59-63 | A Lock on its way that meets a positive count and is left alone ends in four steps with a handle, counted (from its beginning: RefCountingOperations.LockFromStart) |
| RefCountingOperations.OperationEnds | lib/common/intrusive_ptr.h:20-119 | Every operation from its first step to its last, in every clean interleaving: a copy points to what its source pointed to, a move and a moving assignment too and leave the source empty, an assignment points to what the source pointed to when it began, reset leaves an empty handle and a destructor none, a weak handle points to what it was made from, New gives the new object or what the exception leaves, and Lock the object of the weak handle or, if the strong count is zero at the end, nothing |
| RefCountingOperations.LockFromStart | lib/common/weak_ptr.h:59-63 | A Lock that begins on a weak handle to an object with a positive count and is left alone has a handle to it after five steps, with the count one higher and all else as it was |
| RefCountingOperations.FirstStepLeaves | lib/common/intrusive_ptr.h:20-119 | The first step of an operation changes no handle but those the operation is for |
| RefCountingOperations.OwnStepLeaves | lib/common/intrusive_ptr.h:20-119 | Nor does any later step of it |
| RefCountingOperations.CanStart | lib/common/intrusive_ptr.h:20-119 | No operation is missing from the runs: while no other is under way each can begin on any handles it is for |
| RefCountingOperations.CanStartWithin | lib/common/intrusive_ptr.h:23-29 | Nor a handle of this: a strong or weak one inside a constructor, a weak one inside a destructor |
| RefCountingChecks.ZeroStays | lib/common/refcounted.cpp:8-64 | In any run, clean or not, in which no VERIFY has failed yet: no counter has been negative, and a strong or weak counter that has come to zero has stayed there |
| RefCountingChecks.TrapsExactly | lib/common/refcounted.cpp:8-64 | A step fails a VERIFY exactly when it is one of Ref, Unref, TryRef, WeakRef or WeakUnref that needs a reference of its kind and finds none |
| RefCountingChecks.LoadNeverTraps | lib/common/refcounted.cpp:33-36 | The VERIFY of TryRef on the count it has loaded is never the first to fail in any run |
| SqlBuilder.PostgresBuilder.BuildClause | lib/query_builder/builder_base.cpp:188-271 | For every clause tree and stack: the stack is as it was found, on a normal and on a throwing exit, and the text (or the exception) is that of the pure printer, which sees only the kind of the immediate parent; SqlReader.ReadsBack and SqlStatements.StatementReads recover the tree from that text |
| SqlBuilder.PostgresBuilder.BuildExpression | lib/query_builder/builders/postgres.cpp:197-590 | The layout of every expression type and its exceptions for wrong operand counts, with the stack restored |
| SqlBuilder.PostgresBuilder.BuildIn | lib/query_builder/builders/postgres.cpp:343-355 | The loop from the second operand on gives the first operand, the keyword and the joined list, or throws when an operand does |
| SqlBuilder.PostgresBuilder.BuildCall | lib/query_builder/builders/postgres.cpp:543-568 | The loop over any number of operands gives the name and the joined operands in parentheses |
| SqlBuilder.PostgresBuilder.BuildCase | lib/query_builder/builders/postgres.cpp:529-542 | The loop over pairs of operands and the last one gives the WHEN, THEN and ELSE parts in order |
| SqlBuilder.PostgresBuilder.BuildString | lib/query_builder/builders/postgres.cpp:159-180 | The character loop writes the quoted literal with quotes doubled and backslash escapes |
| SqlBuilder.PostgresBuilder.BuildSelect | lib/query_builder/builders/postgres.cpp:707-779 | The text of a SELECT starts with a parenthesis if and only if the stack element below its own is an expression, a SELECT, an UPDATE, an INSERT or a DELETE; the stack is restored |
| SqlBuilder.PostgresBuilder.BuildSelectBody | lib/query_builder/builders/postgres.cpp:707-779 | The parts of a SELECT come in their fixed order, each only if present |
| SqlBuilder.PostgresBuilder.BuildInsert | lib/query_builder/builders/postgres.cpp:781-832 | Columns, rows or DEFAULT VALUES, and the ON CONFLICT part, with every throwing operand restoring the stack |
| SqlBuilder.PostgresBuilder.BuildList | lib/query_builder/builders/postgres.cpp:707-779 | A loop of separated clauses is the join of the texts of the clauses, or throws when one of them does |
| SqlBuilder.PostgresBuilder.BuildAssignments | lib/query_builder/builders/postgres.cpp:834-854 | The SET loop is the join of its "column = value" texts |
| SqlBuilder.PostgresBuilder.BuildRows | lib/query_builder/builders/postgres.cpp:781-832 | The VALUES loop is the join of the parenthesised rows |
| SqlReader.StringReads | lib/query_builder/builders/postgres.cpp:159-180 | For every string, the quoted literal followed by any delimiter reads back to the string: doubled quotes and backslash escapes are uniquely decodable |
| SqlReader.IntReads | lib/query_builder/builders/postgres.cpp:182-185 | Every integer, negative ones included, reads back from its numeral before any delimiter |
| SqlReader.FloatReads | lib/query_builder/builders/postgres.cpp:187-190 | A float whose text is a decimal with a point reads back to that text, and not as an integer |
| SqlReader.ColumnReads | lib/query_builder/builders/postgres.cpp:597-610 | Table path, field path and key prefix read back from the text of a column |
| SqlReader.LayoutReads | lib/query_builder/builders/postgres.cpp:197-590 | For every expression type with delimiters of its own and every operand count the printer accepts, the expression reads back from its text if its operands do from theirs |
| SqlReader.SuffixReads | lib/query_builder/builders/postgres.cpp:329-355 | IS NULL, IS NOT NULL, IN and NOT IN read back behind any operand that reads back |
| SqlReader.ReadsBack | lib/query_builder/builders/postgres.cpp:197-590 | For every tree of literals, columns and expressions of any type and depth, a recursive-descent reader recovers from its text, before whatever ends a clause, the tree with every NOT under a suffix moved over it, and takes exactly that text |
| SqlReader.SameTextSameTree | lib/query_builder/builders/postgres.cpp:299-355 | Two such trees have the same text if and only if they are the same tree, up to exponent being power, to the unprinted table of an EXCLUDED column, and to NOT standing over or under IS NULL, IS NOT NULL, IN and NOT IN |
| SqlReader.NotAndSuffixCollide | lib/query_builder/builders/postgres.cpp:299-335 | NOT over such a suffix and the suffix over NOT are different trees with the same text, for every operand, suffix and list |
| SqlReader.ExpressionThrows | lib/query_builder/builders/postgres.cpp:197-590 | An expression of readable operands has a text exactly when their number is one its type takes; otherwise building it throws |
| SqlStatements.UpdateReads | lib/query_builder/builders/postgres.cpp:834-854 | A reader with keywords of its own recovers from the text of an UPDATE the table, the pairs of SET in order (column left of the sign, value right) and the condition or the lack of one |
| SqlStatements.DeleteReads | lib/query_builder/builders/postgres.cpp:856-869 | From the text of a DELETE the table and the condition or the lack of one |
| SqlStatements.InsertReads | lib/query_builder/builders/postgres.cpp:781-832 | From the text of an INSERT the table, the columns in order, the rows cell by cell or DEFAULT VALUES, and the pairs of ON CONFLICT or the lack of them |
| SqlStatements.SelectReads | lib/query_builder/builders/postgres.cpp:681-779 | From the text of a SELECT the selectors in order, FROM, the joins with their kinds and conditions, WHERE, GROUP BY, HAVING, ORDER BY and LIMIT, each its own or missing |
| SqlStatements.StatementReads | lib/query_builder/builders/postgres.cpp:681-897 | So every such statement, TRUNCATE and the transaction statements included, is printed without an exception and read back to what SqlStatements.Printed says its text shows |
| SqlStatements.SameTextSameStatement | lib/query_builder/builders/postgres.cpp:681-897 | Statements with the same text show the same table, parts and clauses |
| RequestQuery.ProtoQuery.Write | lib/requests/query.cpp:64-352 | ToProto of any clause appends exactly the post-order entries of its tree to whatever the output holds |
| RequestQuery.ProtoQuery.WriteExpression | lib/requests/query.cpp:164-174 | The operand loop writes each operand, notes where its root ended up, then writes the entry naming those positions |
| RequestQuery.ProtoQuery.WriteSelect | lib/requests/query.cpp:289-323 | Selectors, then each optional clause that is there, then the entry of the SELECT with their positions in the right fields |
| RequestQuery.ProtoQuery.WriteDelete | lib/requests/query.cpp:666-676 | The condition, if there is one, before the entry that names it |
| RequestQuery.ProtoQuery.WriteQuery | lib/requests/query.cpp:803-808 | Clause by clause, with the position of each root appended to the start points |
| RequestQuery.CreateClause | lib/requests/query.cpp:26-60 | The reader with its branches by entry kind computes the specified reading, for every input, malformed ones included: out-of-range and unknown entries throw |
| RequestQuery.CreateSelect | lib/requests/query.cpp:325-352 | The references of a SELECT are followed in order and put back in the fields they came from |
| RequestQuery.Query.ToProto | lib/requests/query.cpp:803-808 | A query is written behind whatever the output already holds |
| RequestQuery.Query.FromProto | lib/requests/query.cpp:810-816 | The clauses read are those at the start points, in order; after a failure the query holds the clauses read before it |
| FlatProtoRoundTrip.TreeReadsBack | lib/requests/query.cpp:26-60 | A flattened tree, standing anywhere in a larger query, reads back to the tree, with floats narrowed to 32 bits and no table on any SELECT; reading throws exactly when the tree contains ALL or DEFAULT |
| FlatProtoRoundTrip.StoredUnchanged | lib/requests/query.cpp:114-122 | A tree comes back unchanged if and only if each of its floats survives narrowing and no SELECT in it has a table |
| FlatProtoRoundTrip.QueryReadsBack | lib/requests/query.cpp:803-816 | A whole query comes back clause by clause, in order, through its start points, wherever the output began; it throws exactly when a clause contains ALL or DEFAULT |
| FlatProtoRoundTrip.FlattenNests | lib/requests/query.cpp:164-174 | Every reference a clause writes is to an entry of its own that comes before the referring one |
| FlatProtoRoundTrip.AppendKeepsBackward | lib/requests/query.cpp:164-174 | Appending a clause keeps all references of a query backward |
| FlatProtoRoundTrip.ReferredOnce | lib/requests/query.cpp:289-323 | Each entry of a flattened tree is referred to exactly once, except the root, which nothing refers to; no reference leaves the tree |
| FlatProtoRoundTrip.SucceedsExactly | lib/requests/query.cpp:26-60 | For every input and position: reading succeeds, given enough stack, if and only if the entries it can come to are known, in range, and have ranks that fall along every reference |
| FlatProtoRoundTrip.NeverReturnsExactly | lib/requests/query.cpp:26-60 | For every input and position, whatever else the input holds: no stack is deep enough if and only if the entry is on a ring of known entries, each with a reference back into the ring behind references that can be read |
| FlatProtoRoundTrip.ThrowsExactly | lib/requests/query.cpp:26-60 | For every input and position: reading throws, on every stack deep enough, if and only if there are neither such ranks nor such a ring; so each input is decided |
| FlatProtoRoundTrip.ReadTerminates | lib/requests/query.cpp:26-60 | When all references are backward, reading at any position returns, within a stack no deeper than the position |
| FlatProtoRoundTrip.DepthIsEnough | lib/requests/query.cpp:26-60 | A reading that ends is independent of how much stack is left |
| FlatProtoRoundTrip.RingNeverReturns | lib/requests/query.cpp:26-60 | On such a ring no stack is deep enough: the reader does not check for cycles |
| RequestTransform.TransformThrows | lib/query_builder/organizers/sql_organizer.cpp:9-89 | A request clause is refused if and only if an expression or SELECT in it looks at a column whose path no registered place stands behind |
| RequestTransform.ConditionKept | lib/query_builder/organizers/sql_organizer.cpp:9-89 | Every condition over registered columns becomes a builder clause that stands for the same condition: operators, operand order, literals and paths |
| RequestTransform.ConditionReadsBack | lib/query_builder/organizers/sql_organizer.cpp:9-89 | From request to SQL text and back: for conditions of any expression types over registered columns the reader finds the condition in the text |
| RequestTransform.SameTextSameCondition | lib/query_builder/organizers/sql_organizer.cpp:39-76 | Two conditions have the same SQL text if and only if they are the same condition, up to exponent being power, the EXCLUDED flag, which the organizer drops, and NOT standing over or under IS NULL, IN and their negations |
| RequestTransform.ConditionOverTheWire | lib/requests/query.cpp:26-60 | A condition written to the flat form behind any entries, read back, organized and printed gives text that reads as the condition again |
| RequestTransform.SelectsEverything | lib/query_builder/organizers/sql_organizer.cpp:119-145 | SELECT of a root path becomes a select from the table of the root, without any other part, whose selectors are, by table and field, all the primitive fields of the schema tree, each exactly once; any other SELECT: RequestSelects.SelectKept |
| RequestSelects.SelectKept | lib/query_builder/organizers/sql_organizer.cpp:91-145 | Every SELECT over registered places becomes a builder SELECT in which each part of the request is in its own place: WHERE, GROUP BY, HAVING, ORDER BY and LIMIT stand for the conditions of the request or are missing with them, FROM is its table, and the selectors are, in order, the one column of a path of a primitive field, the columns of all primitive fields in the subtree of a path of a message, and any other selector itself |
| RequestSelects.SelectReadsBack | lib/query_builder/builders/postgres.cpp:707-779 | From such a request to its SQL text and back: the statement that is read has the conditions of the request, each in its place, its table and its selectors; a request whose selectors come to no column at all is printed as SELECT * |
| RequestTransform.OtherTexts | lib/query_builder/organizers/sql_organizer.cpp:9-37 | Floats, ALL and DEFAULT have texts of their own; any statement but SELECT inside a clause leaves no text |
| RequestTransform.ContextExists | lib/query_builder/organizers/sql_organizer.cpp:91-115 | Over any proper roots the subtree queries have answers to expand by |
| Organizer.ColumnDeterminesPath | lib/query_builder/organizers/sql_organizer.cpp:162-162 | Different registered paths have different columns |
| Organizer.ConvertMeaning | lib/query_builder/organizers/sql_organizer.cpp:196-238 | A reading of literals as values of a given type: a bool and an int32 are themselves, a uint32 is the int32 congruent to it modulo 2^32, a 64-bit number is the number its decimal text names, floats and strings are their text, a message is DEFAULT. The clause built for a value reads as that value, and no other clause does |
| Organizer.ColumnMeaning | lib/query_builder/organizers/sql_organizer.cpp:41-76 | The clause built for a path is the plain column whose table and field make up the path, and no other is |
| Decimal.ReadsWhatIsWritten | lib/query_builder/organizers/sql_organizer.cpp:210-217 | A text reads as a decimal number if and only if it is the text to_string has for the number |
| Organizer.LastValueMeaning | lib/query_builder/organizers/sql_organizer.cpp:174-239 | The value that counts for a path is that of its last occurrence, and there is none exactly when it does not occur |
| OrganizerInsert.OrganizeInsert | lib/query_builder/organizers/sql_organizer.cpp:149-272 | The nested loops with their index map, for all subrequests: an exception exactly when some attribute path is not registered, else an INSERT whose columns name the specified paths, whose cells read as the specified values or are DEFAULT, and whose ON CONFLICT pairs set each column from its EXCLUDED one |
| OrganizerInsert.FirstSelectors | lib/query_builder/organizers/sql_organizer.cpp:158-166 | The columns of the first row as they stand; the map sends a repeated path to its last column |
| OrganizerInsert.SetCell | lib/query_builder/organizers/sql_organizer.cpp:174-239 | One attribute: a new path makes a new column and widens every row built so far, then its converted value goes to its column |
| OrganizerInsert.AddRow | lib/query_builder/organizers/sql_organizer.cpp:171-242 | A row has one cell for every column, the earlier rows only gain DEFAULT cells |
| OrganizerInsert.ColumnsInFirstOccurrenceOrder | lib/query_builder/organizers/sql_organizer.cpp:157-193 | If the first row repeats no path, the columns are the distinct attribute paths of all rows in the order they first occur |
| OrganizerInsert.DistinctMeaning | lib/query_builder/organizers/sql_organizer.cpp:157-193 | That list has every path once, in first-occurrence order, and no other |
| OrganizerInsert.ColumnsOncePerPath | lib/query_builder/organizers/sql_organizer.cpp:161-166 | The INSERT names each column once if and only if its first row repeats no path; its columns are exactly those of the attribute paths |
| OrganizerInsert.InsertMeaning | lib/query_builder/organizers/sql_organizer.cpp:149-272 | If the first row repeats no path: every row is as long as the column list, and cell (r, c), read as a value of the type of what row r last gives for column c, is that value; without such a value it is DEFAULT |
| OrganizerInsert.RepeatedColumnIsDefault | lib/query_builder/organizers/sql_organizer.cpp:149-272 | The emitted INSERT names a column twice if and only if the first row repeats a path; then in every row all copies but the last are DEFAULT, and the last copy of each column reads as the last value the row gives |
| OrganizerUpdate.OrganizeUpdate | lib/query_builder/organizers/sql_organizer.cpp:276-416 | For all attribute sets: an exception exactly when a non-empty set misses a primary key or mentions an unregistered path, else exactly the UPDATEs of the sets that have something to set (OrganizerUpdate.UpdateIs says what is in them) |
| OrganizerUpdate.FoundKeys | lib/query_builder/organizers/sql_organizer.cpp:302-312 | The set of keys found is complete, judged by its size, exactly when the set gives every key |
| OrganizerUpdate.Split | lib/query_builder/organizers/sql_organizer.cpp:329-391 | Attributes are split by the key set, in order, into conditions and assignments |
| OrganizerUpdate.SplitMeaning | lib/query_builder/organizers/sql_organizer.cpp:329-391 | SET holds, in order, a column and a literal that name and read as the path and value of each attribute outside the key; the equalities those of each attribute of the key |
| OrganizerUpdate.UpdateIs | lib/query_builder/organizers/sql_organizer.cpp:329-412 | A set with nothing outside the key has no UPDATE; any other has one, of its table, with these pairs and the AND of these equalities |
| OrganizerUpdate.JoinByAnd | lib/query_builder/organizers/sql_organizer.cpp:398-408 | The loop builds the left-nested AND of the conditions |
| OrganizerUpdate.ConjoinedMeaning | lib/query_builder/organizers/sql_organizer.cpp:398-408 | The left-nested AND holds of a row exactly when all its conditions do |
| OrganizerUpdate.ConditionsMeaning | lib/query_builder/organizers/sql_organizer.cpp:381-387 | The conditions hold of a row exactly when, in every key column, the row has a literal that reads as the given key value |
| OrganizerUpdate.OverwrittenMeaning | lib/query_builder/organizers/sql_organizer.cpp:388-396 | Exactly the listed non-key columns change, each to a literal that reads as the last value given for it |
| OrganizerUpdate.UpdateMeaning | lib/query_builder/organizers/sql_organizer.cpp:284-412 | The UPDATE of a set, interpreted on any row, does what the set asks for: in a row whose literals read as the given keys each other path gets its last value, any other row is left alone |
| OrganizerUpdate.UpdatesMeaning | lib/query_builder/organizers/sql_organizer.cpp:276-416 | Running the emitted UPDATEs in order does to each row what the sets ask for, one after another |
| OrganizerUpdate.AtMostOneRowChanges | lib/query_builder/organizers/sql_organizer.cpp:302-327 | A set with every key changes at most one of two rows that differ in a key, and never a key |
| OrganizerText.UpdateReadsBack | lib/query_builder/builders/postgres.cpp:834-854 | The text of an emitted UPDATE reads back to it, WHERE included, and what is read does to every row what the attribute set asks for |
| OrganizerText.InsertReadsBack | lib/query_builder/builders/postgres.cpp:781-832 | The text of an emitted INSERT reads back to it, column by column and cell by cell; the EXCLUDED columns of ON CONFLICT show no table |
| Registry.RelationManager.RegisterRoot | lib/relation/relation_manager.cpp:70-89 | Field by field, the maps of the manager become those of the specification, and every at() finds its key |
| Registry.RelationManager.RegisterNode | lib/relation/relation_manager.cpp:91-117 | One field in about ten maps: names, parent table, related sets, type, and the field and message maps |
| Registry.RelationManager.RegisterMessageField | lib/relation/message.cpp:21-38 | A message field, its own fields by mutual recursion, then its parent link |
| Registry.RelationManager.Process | lib/relation/message.cpp:61-78 | The loop over the fields of a message |
| Registry.FindPrimaryFields | lib/relation/relation_manager.cpp:12-39 | The recursive loop computes the specified key set |
| RegistryTree.NodesApart | lib/relation/message.cpp:61-78 | No two nodes of a proper schema tree have the same path, and no two fields of a message the same name entry |
| RegistryTree.FieldsFill | lib/relation/relation_manager.cpp:91-117 | The recursion through messages amounts to one entry for each node of the tree in each map, and nothing else |
| RegistryRoots.RegistryShowsTheTrees | lib/relation/relation_manager.cpp:70-117 | After registering any proper roots in any order, the maps agree: every node is registered with its name, type and objects, its table is its root, and no other key holds anything; earlier roots are undisturbed |
| RegistryRoots.TablesAreTheRoots | lib/relation/relation_manager.cpp:70-89 | The tables are exactly the roots, each with the primary, related message and related field sets of its own tree |
| RegistryRoots.RelatedExactly | lib/relation/relation_manager.cpp:91-117 | A table lists as related fields exactly the primitive nodes of its tree, and as related messages exactly the root and its message nodes |
| RegistryRoots.PrimaryExactly | lib/relation/relation_manager.cpp:12-39 | FindPrimaryFields, by its own traversal, returns exactly the annotated nodes that are not at or under a repeated or map field |
| RegistryRoots.UnrepeatedIsNode | lib/relation/relation_manager.cpp:12-39 | All of those are registered nodes |
| RegistryLinks.FieldsAreTheNodes | lib/relation/message.cpp:61-78 | The fields of every message object are exactly the nodes directly under it |
| RegistryLinks.ParentsAreThePlacesAbove | lib/relation/message.cpp:11-38 | Exactly the message nodes and the direct fields of roots have a parent entry, and it is the place above; deeper primitive fields have none |
| RegistryLinks.EntriesAreTheNames | lib/relation/relation_manager.cpp:70-117 | A name looked up under a path gives exactly the number of the field or root of that name there |
| RegistryQueries.Queries.GetMessagesFromSubtree | lib/relation/relation_manager.cpp:119-142 | Cached or fresh, the answer is the specified set, and the caches stay right |
| RegistryQueries.Queries.GetObjectWithAncestors | lib/relation/relation_manager.cpp:229-254 | Cached or fresh, the object and its chain of parents; the walk ends because each parent is shorter |
| RegistryQueries.Queries.ExpandSelector | lib/query_builder/organizers/sql_organizer.cpp:91-115 | The columns come message by message in path order and by number in a message, one for each primitive field of the subtree |
| RegistryQueries.Queries.PrimitiveFields | lib/relation/field.cpp:210-234 | The filtered iterator passes exactly the primitive fields, by number |
| RegistrySchema.PathsAreThePlaces | lib/relation/relation_manager.cpp:69-142 | The registered paths are the roots and the nodes of their trees, and no others |
| RegistrySchema.SchemaMatches | lib/relation/relation_manager.cpp:44-61 | The registry of any proper roots gives INSERT and UPDATE a consistent schema: its paths are exactly the places of the trees, the table of each is its root, and the primary fields of a root are exactly its annotated nodes not at or under a repeated field |
| RegistrySchema.BuildableExactly | lib/query_builder/organizers/sql_organizer.cpp:294-340 | So an attribute set of a registered root can be turned into its UPDATE if and only if each of its paths is a place of a registered tree and all primary nodes of the root are among them |
| RegistryAnswers.SubtreeExactly | lib/relation/relation_manager.cpp:119-142 | The subtree of a non-empty path is exactly the registered messages having it as a prefix; the empty path has none |
| RegistryAnswers.AncestorsExactly | lib/relation/relation_manager.cpp:229-277 | For a message or a direct field of a root the answer is exactly the objects at its non-empty prefixes; a deeper primitive field comes alone |
| RegistryAnswers.ParentsAreShorter | lib/relation/relation_manager.cpp:256-277 | Every parent entry leads to a shorter path, so every walk ends |
| RegistryAnswers.CreateTableColumns | lib/query_builder/builders/postgres.cpp:956-983 | The related fields CREATE TABLE iterates over all resolve to primitive fields, and are those of the tree |
| RegistryAnswers.ExpandedPath | lib/query_builder/organizers/sql_organizer.cpp:91-115 | Expanding any path under a root lists exactly the primitive fields in its subtree, each once, message by message in path order and by number within a message |
| RegistryAnswers.ExpandedRoot | lib/query_builder/organizers/sql_organizer.cpp:91-115 | Expanding a SELECT of a root lists each primitive field of the tree exactly once, the same columns CREATE TABLE makes |
| Paths.Compare | lib/relation/path.cpp:225-238 | The comparison loop decides the lexicographic order |
| Paths.LessExactly | lib/relation/path.cpp:225-238 | That order: a proper prefix is less, and so is a path with the smaller number at the first difference; nothing else is |
| Paths.LessIsTotal | lib/relation/path.cpp:225-238 | The order is irreflexive and total, so map keys are equivalent only when equal |
| Paths.LessIsTransitive | lib/relation/path.cpp:225-238 | The order is transitive |
| Paths.AncestorComesFirst | lib/relation/path.cpp:225-278 | An ancestor is less than its descendants |
| Paths.SubtreeIsOneStretch | lib/relation/path.cpp:225-278 | Between two paths under a common ancestor the order has only paths under it |
| Paths.IsAncestorOf | lib/relation/path.cpp:266-278 | The loop decides being a proper prefix |
| Paths.IsParentOf | lib/relation/path.cpp:252-264 | The loop decides being a prefix shorter by one |
| Paths.GetHash | lib/relation/path.cpp:14-20 | The loop folds the entry hash over the path from 0 |
| Paths.IncrementalHash | lib/relation/path.cpp:10-20 | Going on from the hash of a prefix gives the hash of the whole path |
| Paths.Split | lib/common/format.cpp:39-58 | The loop cuts a text at its slashes; an empty last part is dropped |
| Paths.SplitOfJoined | lib/common/format.cpp:39-58 | Splitting undoes joining slash-free names if and only if there are none or the last is not empty |
| RegistryPaths.PathNames | lib/relation/path.cpp:113-123 | String(), with its hash carried along, gives the names up to the first unnamed entry |
| RegistryPaths.ParsePath | lib/relation/path.cpp:36-40 | A text is parsed by appending its parts by name; an unknown name throws |
| RegistryPaths.NamesOfPlace | lib/relation/path.cpp:113-123 | A registered path has one name for each entry, those of the places along the way |
| RegistryPaths.NamesParseBack | lib/relation/path.cpp:82-87 | The names of a registered path, joined by slashes, parse back to the path |
| RegistryPaths.PathIsTableAndField | lib/relation/path.cpp:288-299 | A registered path is its GetTable() followed by its GetField() |
| FormatScan.FindNext | lib/common/format.cpp:367-387 | The first occurrence outside quotes and not escaped, or none at all |
| FormatScan.FindDollar | lib/common/format.cpp:389-420 | The dollar sign is found exactly when only digits lie between it and the brace |
| FormatScan.FindPlaceHolder | lib/common/format.cpp:389-420 | The two-pointer search gives the first live opening brace and the brace at which a depth counter over the live braces first returns to zero, and npos exactly when there is no such pair |
| FormatText.EscapeSymbols | lib/common/format.cpp:23-37 | The loop puts a backslash before each special character |
| FormatText.UnescapeSymbols | lib/common/format.cpp:441-464 | The loop drops escaping backslashes |
| FormatText.UnescapeEscaped | lib/common/format.cpp:441-464 | UnescapeSymbols(EscapeSymbols(s)) == s for every string |
| FormatText.LineBreaksEscaped | lib/common/format.cpp:23-37 | A newline becomes a backslash and n, a carriage return a backslash and r, a backslash is doubled, anything else stays, wherever it stands |
| FormatText.EscapedIsOneLine | lib/common/format.cpp:23-37 | An escaped text has no line break |
| FormatText.PiecesPartition | lib/common/format.h:631-665 | Literals and placeholders, put together, are the format string: nothing is lost, doubled or scanned twice |
| FormatText.FormatSequential | lib/common/format.h:631-665 | The output of the loop is that of rendering the pieces in order; FormatMeaning.FormatShows says what each contributes |
| FormatText.ReadIndex | lib/common/format.h:668-721 | The index cut out of the text, which runs past the digits: for digits that name n between 1 and 2^64 - 1 it is argument n - 1, for 0 no argument, and any other digits throw |
| FormatText.FormatIndexed | lib/common/format.h:668-721 | The formatter with its replacement cache gives exactly the output, or the exception, of rendering every placeholder anew; FormatMeaning.FormatShows says what each contributes |
| FormatText.HasIndexedPlaceholders | lib/common/format.cpp:422-439 | True exactly when some placeholder has an index |
| FormatText.Format | lib/common/format.h:728-736 | The indexed form if some placeholder has an index, else the sequential one; FormatMeaning.FormatShows says what both give |
| FormatText.NoIndexSamePieces | lib/common/format.cpp:422-439 | Without an index both forms cut the string alike |
| FormatText.FormsAgree | lib/common/format.h:631-721 | With an argument for every placeholder and no index the two forms give the same output |
| FormatMeaning.PiecesWellCut | lib/common/format.h:631-721 | No literal has a placeholder in it, and every placeholder ends at the brace that closes it and has nothing but digits as its index |
| FormatMeaning.IndexesAreTaken | lib/common/format.cpp:389-420 | A placeholder is without an index only if no dollar sign with nothing but digits stands right in front of it |
| FormatMeaning.FormatShows | lib/common/format.h:631-721 | The output is what the pieces show, in order: a literal itself, unescaped; the k-th placeholder without an index argument k; one with an index that argument; what has no argument shows nothing in the indexed form and itself in the sequential one. The indexed form throws exactly when some index is no 64-bit number |
| FormatMeaning.IndexNames | lib/common/format.h:691-705 | Wherever it stands, a placeholder with the decimal numeral of n as its index shows argument n - 1 under its own modifiers, and nothing if n is 0 or above the number of arguments; it does not count for the placeholders without an index |
| SerialCodec.BuildPacket | lib/ipc/decode_encode.cpp:466-505 | The pushed bytes are the packet: start, command, length, payload, XOR checksum, end |
| SerialCodec.DecodeBinary | lib/ipc/decode_encode.cpp:268-401 | The scan with its checks, its wrap-around bound and its checksum loop |
| SerialCodec.Decoder.ProcessBuffer | lib/ipc/decode_encode.cpp:232-264 | The bytes dropped from the buffer, in place |
| SerialCodec.Decoder.ReadTemperature | lib/ipc/decode_encode.cpp:198-230 | One read: append, decode, drop, with the limit on the buffer |
| SerialStream.DecodeFinds | lib/ipc/decode_encode.cpp:268-401 | On quiet bytes (no start byte followed by the command, as in the zeros of a new buffer) followed by packets, the scan passes the quiet bytes and returns the first payload if its packet is whole; else nothing, with no false match inside a packet and no read out of bounds |
| SerialStream.DecodeExactly | lib/ipc/decode_encode.cpp:268-401 | On any bytes, garbled ones included: a payload is returned exactly when a whole packet of it, with the right checksum, stands in the buffer, and then it is that of the first such packet |
| SerialStream.ProcessExactly | lib/ipc/decode_encode.cpp:232-264 | On any bytes, everything up to the end of the first frame is dropped, unless one that is cut off comes before it; nothing where there is none |
| SerialStream.OneByteChecked | lib/ipc/decode_encode.cpp:466-505 | The checksum tells apart any two payloads that differ in one byte |
| SerialStream.GarbledIsNoPacket | lib/ipc/decode_encode.cpp:268-401 | A packet with one byte of its payload changed is not taken for a packet |
| SerialStream.ProcessFinds | lib/ipc/decode_encode.cpp:232-264 | On such a buffer the quiet bytes and the first packet are dropped if it is whole, else nothing |
| SerialStream.ReadStep | lib/ipc/decode_encode.cpp:198-230 | A read into a buffer under the limit goes out of bounds if it leaves fewer than n + 4 bytes and not the header of the next packet; it returns the payload of the next packet if that is whole and leaves the stream behind it; any other read leaves the stream as it is |
| SerialStream.RunReturns | lib/ipc/decode_encode.cpp:198-264 | If the lengths of the reads are fine (none too short, none finding the buffer at its limit), the payloads come back in order, each at most once, none made up, the rest is still to come, and no read goes out of bounds |
| SerialStream.RunFaultsExactly | lib/ipc/decode_encode.cpp:198-264 | As long as the buffer stays under its limit, some read of a well-formed stream goes out of bounds if and only if some read is too short, judged by the lengths of the reads alone |
| SerialStream.SplitHeaderFaults | lib/ipc/decode_encode.cpp:268-401 | An ordinary way to cut a stream that does: a read that ends one byte into a packet and a next one that brings one byte |
| SerialStream.ResetForgets | lib/ipc/decode_encode.cpp:203-207 | At the limit a read goes on as from a new buffer: what was buffered has no effect any more |
| SerialStream.ResetLoses | lib/ipc/decode_encode.cpp:203-207 | If the buffer then ends with a packet, exactly the buffered payloads are lost, and the stream goes on with the others; if it ends within a packet, that one is lost as well, and the stream goes on behind the rest of it, which is still to come, if and only if the rest is quiet |
| SerialStream.RestIsQuiet | lib/ipc/decode_encode.cpp:203-230 | The rest of a packet cut behind its first byte is quiet if and only if its length byte, payload and checksum do not bring a start byte and the command one behind the other |
| SerialStream.ByteAlwaysQuiet | lib/ipc/decode_encode.cpp:203-230 | In the one-byte format it always is: every reset recovers at the next packet |
| SerialStream.ResetMakesUp | lib/ipc/decode_encode.cpp:203-207 | In the floating-point format it may not be: after a reset within the first five bytes of a certain packet, and with a next one that starts with 3, a read returns a payload that was never sent |
| SerialStream.NothingLost | lib/ipc/decode_encode.cpp:198-264 | When everything has arrived, a payload is still missing exactly when a whole packet waits in the buffer |
| SerialStream.DecodeFaultsExactly | lib/ipc/decode_encode.cpp:268-401 | On any bytes, decoding reads out of bounds if and only if there are fewer than n + 4 of them and no start, command and length byte in a row |
| SerialStream.ProcessFaultsExactly | lib/ipc/decode_encode.cpp:232-264 | On any bytes, ProcessBuffer reads out of bounds if and only if there are fewer than 5 of them and no start and command byte followed by a third |
| SerialStream.StepFaultsExactly | lib/ipc/decode_encode.cpp:198-264 | On any buffer and bytes, a whole read goes out of bounds if and only if its decoding does |
| SerialValues.ByteRoundTrip | lib/ipc/decode_encode.cpp:507-519 | A temperature comes back as the whole number nearest to the value clamped to the range of a signed byte, halves away from zero |
| SerialValues.FixedRoundTrip | lib/ipc/decode_encode.cpp:310-354 | The tenths come back if and only if they are not negative; negative ones come back 6553.6 too high, as the decoder reads unsigned |
| SerialValues.FloatRoundTrip | lib/ipc/decode_encode.cpp:356-401 | Every 32-bit pattern comes back, those of infinities and NaNs included |
| FileRotation.FileHandler.RotateLogFile | lib/common/logging.cpp:97-123 | The renaming loop moves every backup up by one, drops the one past the limit and opens an empty file; every other name is as it was |
| FileRotation.FileHandler.Handle | lib/common/logging.cpp:65-95 | The directory and the size field represent the specified list of files |
| FileRotation.RotationShifts | lib/common/logging.cpp:97-123 | The renaming is a shift of the list of files |
| FileRotation.HandledMessages | lib/common/logging.cpp:65-123 | One message more: the files hold what they held and then the message, less at most the oldest file |
| FileRotation.HandledKeeps | lib/common/logging.cpp:65-123 | The run invariant is kept by every message |
| FileRotation.RunKeeps | lib/common/logging.cpp:65-123 | In every run: backups are 1 to k with k within the count, the files hold a suffix of the message stream in order, a file over the limit holds exactly one message, and a file was closed only because the next message did not fit |
| FileRotation.NothingDroppedEarly | lib/common/logging.cpp:97-123 | Until all backups are in use nothing is lost |
| LogQueue.StepKeeps | lib/common/logging.cpp:136-187 | Every critical section of every thread, and every change of handlers or limit, keeps the queue invariant |
| LogQueue.LoggedExactly | lib/common/logging.cpp:149-154 | The log is exactly the entries of the calls of Log, in their order |
| LogQueue.FullBuffersAreFlushed | lib/common/logging.cpp:149-160 | In every run that leaves the limit alone: while the buffer is at or over the limit, and not empty, some thread is about to flush it |
| LogQueue.FlushesOnlyFull | lib/common/logging.cpp:149-160 | A call of Log comes to a flush only if it has filled the buffer |
| LogQueue.HandlersExactly | lib/common/logging.cpp:136-147 | The handlers are exactly those that have been added and not removed since |
| LogQueue.UnregisteredStays | lib/common/logging.cpp:136-147 | A handler that is not registered receives nothing, and one that has been removed does not come back |
| LogQueue.EntriesAccounted | lib/common/logging.cpp:149-182 | In every interleaving the logged entries are the taken batches in order and then the buffer; each batch has been processed once or waits with exactly one thread |
| LogQueue.DeliveredExactly | lib/common/logging.cpp:163-182 | When no thread delivers, each handler has received exactly the batches processed while it was registered, whole and in processing order |
| LogQueue.DeliveredOnce | lib/common/logging.cpp:163-182 | An entry logged once reaches a handler once if its batch was processed while the handler was registered, and not otherwise |
| LogQueue.NothingStuck | lib/common/logging.cpp:149-182 | When all threads are outside, every entry is in the buffer or in a processed batch |
| LogQueue.OrderKeptExactly | lib/common/logging.cpp:163-182 | Batches are processed in the order they were taken if and only if no flush gets the lock while an earlier batch waits for it |
| LogQueue.OneFlusherKeepsOrder | lib/common/logging.cpp:163-182 | If one thread does all the flushing, no batch overtakes another |
| LogQueue.ReceivedInLogOrder | lib/common/logging.cpp:149-182 | If none does, a handler that was registered throughout has received the beginning of the log, in log order, and once all batches are processed all of it but the buffer |
| LogQueue.LogOrderExactly | lib/common/logging.cpp:149-182 | If no entry was logged twice, such a handler has received the beginning of the log if and only if no flush overtook another |
| LogQueue.BatchesCanSwap | lib/common/logging.cpp:163-182 | Flushes can overtake: two threads can deliver their batches in the other order |

## Left out

- `TWeakPtr::operator=` (lib/common/weak_ptr.h:52-57): it copies the pointer without touching a counter, so no counting invariant survives it.
- Reference counting: memory orders weaker than sequential consistency, counter overflow, and `Ref` and `Unref` by other amounts than one. The counters are fields of a state that atomic steps change, not of a class, because the interleaving of steps is the point.
- Reference counting: calls made by constructors and destructors are activities of their own; the constructor or destructor goes on when those that use its `this` have returned. A constructor or destructor that gives `this` away other than by making handles is not modelled.
- Reference counting: apart from destructors, which may use anything as RefCountingInvariant.KeptExactly says, a program is taken to use one handle variable from one activity at a time, for reading from several (anything else is a data race), and to begin an operation on a member only while its object is there. The source of an assignment is not changed or, if it is no member of an object made by New, destroyed before the assignment has read it; a source that is merely changed by a destructor would do no harm.
- Reference counting: a weak handle is no member of an object in the model; its operations run no code of the program's. A weak handle made from the strong handle whose reset has called a destructor is one made of `this`.
- SqlBuilder.PostgresBuilder.BuildClause: the cases for CREATE, DROP and ALTER TABLE, for adding, dropping and altering columns and for column definitions are left out, with their types and defaults.
- SQL text: a float is given by its text, which is read back as a decimal with a point (an infinity or a NaN is not), and need not determine the number. SELECTs inside expressions are left out of the reading, and what a server does with any text is not modelled.
- Request attributes stay in their encoded form when a query is flattened; their decoding is not part of this model. `double` values are reals, the narrowing to a 32-bit float is a parameter, and so is the text of a double.
- The recursion depth of the proto reader is a parameter that stands for the stack; an index out of range throws.
- `lib/requests/proto` field widths: numbers are unbounded, except that 32-bit conversion is modelled where INSERT and UPDATE convert values.
- A SELECT whose table was never set reads an uninitialised number; in the model that number is a parameter. A path shorter than the path of its table would be undefined; the model throws, and no registered path is one.
- OrganizeDelete, OrganizeSelect's callers, and DML nested in TransformClause, which becomes null.
- INSERT and UPDATE: the schema is given by what the registry answers for paths (RegistrySchema.SchemaMatches), and a path stands for its hash.
- Registry: hashes are abstract, different on all registered paths and the empty path; objects are represented by their paths; nested maps are flattened to maps with pairs as keys. `Clear`, registering a root number or name twice, and registration after the first query are left out: nothing invalidates the subtree cache.
- Paths: the mixing of one entry into a hash is a parameter.
- Formatting: rendering one argument under its modifiers is a parameter, so ParseFromString, the option getters, Trim and the numeric and time formats are left out. `stoul` is modelled on texts that start with a digit.
- Serial port: the text codec, reading and writing of the port, and the rounding of floating-point numbers; std::round acts on reals. A temperature whose tenths do not fit 16 bits has no defined conversion.
- Log files: the level filter, the text of a line, failing file operations, and changing the limits between messages; files are named Current and Backup(n). A file too long at the start is left out.
- LogQueue.StepKeeps: handlers are assumed not to throw, and each registration has its own number, so one handler object registered twice counts as two handlers.
- Thread pool, periodic executor, sockets, HTTP, configuration and signal handling.
