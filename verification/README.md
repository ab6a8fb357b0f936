# Verified model of laic

`laicc` compiles contracts, written in a small interface language, to Rust, Python and TypeScript classes that
exchange one-row Arrow batches; `laic` is the runtime that carries messages between agents. This project models
both in Dafny and proves properties of the model. Run `dafny verify dfyconfig.toml` to check all of it.

## What is modelled

**The contract compiler.** Each generator is a method that builds a small program: schema fields and builder steps
(`RustSerialize`), field blocks (`RustDeserialize`), dictionary entries (`PythonSerialize`), statements
(`PythonDeserialize`, `TypeScriptDeserialize`). Each program has an interpreter over streams of record batches with
typed columns, null cells and metadata (`Arrow`). `Records` says what it means for a stream to *carry* a record,
independently of any program. Both serializers are proved to write streams that carry their record, the deserializers
to return the record of every stream that carries one, and to refuse every stream that breaks the contract;
`RoundTrip` puts them together for every struct the validator accepts.

Programs are run as their language runs them. Emitted literals are kept as text and are read again by lexers of the
three languages; Rust also refuses those that its lints deny by default. A Rust block is typed before it is run, so that a program that would not compile is never credited
with a result. Variables follow each language's scoping: `let` shadowing in Rust, one scope per function in Python,
blocks with dead zones in TypeScript. Names that a body does not bind are looked up in its module, where the
structs and enums of the contract stand beside the imports and can take their place.

Whole files are generated as well (`Definitions`, `RustContract`, `PythonContract`, `TypeScriptContract`): when a Rust
file compiles, when a TypeScript module parses, when executing a Python module leaves every class in working order.
For the last, `PythonLoading` runs every class statement with the scope of its body: constants, defaults, methods, what
`dataclass` and `IntEnum` make of them. `FileExchange` takes a contract file from the validator to the exchange of
records, and `SmallFile` has a file and a record on which every condition is met; `Failures` has accepted contracts for
the ways in which the conditions can fail. The Rust conditions have a parameter `constants`: the names that the glob
imports of the Arrow crates bring and that a `let` compares with instead of binding.

**The front end.** The validator with the conditions it decides and what its errors say (`Validate`), the grammar of
types with the printer (`TypeSyntax`) and all the texts it reads (`TypeSpelling`), string literals (`Literals`), line endings (`Newlines`), tensor shapes
(`Shape`), error enums (`ErrorEnum`).

**The runtime.** The header codec (`Header`), messages (`Message.dfy`), frames on a byte stream (`Framing`), the lossy
shared-memory queue (`IpcQueue`), credit-based flow control over that queue (`Flow`), handshake tokens (`Tokens`), the
trust-domain handshake (`Handshake`) and any number of interleaved handshakes over a channel that replays
(`HandshakeRuns`).

Code that changes things step by step is modelled by classes, arrays and loops, each proved against a function;
the properties are proved of the function.

## What the code does not do as meant

The model follows the code. Where a meant property fails, the theorem states exactly when it holds. The validator
accepts every contract named here.

- `list<optional<T>>`: the Rust serializer's generator panics, because the builder of the item type is looked up before
  the arm for optional items is reached. The flag `reached` asks for the column that arm would emit; everything is
  proved for both readings (`RustSerialize.PanicsExactly`, `RoundTrip.EmissionExactly`, `Failures.ListOfOptionals`).
- Controls U+0080 to U+009F are escaped as `\x80` to `\x9F`, which Rust literals do not allow
  (`Literals.RustRoundTrip`), and the characters that change the direction of text, U+202A to U+202E and U+2066 to
  U+2069, are not escaped, which a lint of Rust denies by default (`RustEncoding.WriterCompilesExactly`,
  `RustDecoding.BlocksCompileExactly`, `Failures.ControlsInContract`, `Failures.ControlsInDefault`).
- An integer default of a float field is emitted as an integer literal, which Rust does not take for a float
  (`RustDecoding.BlocksCompileExactly`, `Failures.IntegerDefaultOfFloat`).
- A float default that is too large is parsed as infinity and emitted as `inf.0`, which no target can read
  (`RustDecoding.BlocksCompileExactly`, `PythonLoading.ModuleWorksExactly`, `Failures.InfiniteDefault`); Rust also
  refuses a 32-bit default that would round to infinity.
- A tensor two containers deep (`optional<list<tensor>>`, `list<optional<tensor>>`): the emitted Rust yields borrowed
  bytes where the struct wants owned ones (`RustDecoding.BlockTypeExactly`, `Failures.NestedTensors`).
- Field names can capture names the emitted body binds or reads (`RustDecoding.CompilesExactly`,
  `PythonBodies.BodyDecodesExactly`, `TypeScriptBodies.BodyBindsExactly`, `RoundTrip.FieldCalledBatch`,
  `TypeScriptBodies.CompanionCaptured`). In Rust a field can also be called like a constant of the Arrow crates
  (`Failures.FieldCalledLikeConstant`).
- In Python the fields share the class body with its constants and methods. A defaulted field `classmethod` takes the
  decorator's place, a field `to_ipc` or `from_ipc` has that method for its default, and one called `SKILL_ID`,
  `VERSION` or `DIRECTION` makes the constant a field; `IntEnum` refuses an error called `mro`
  (`PythonLoading.OrderExactly`, `PythonLoading.BodyExactly`, `PythonLoading.ConstantsKeptExactly`,
  `Failures.FieldCalledClassmethod`, `Failures.FieldCalledToIpc`, `Failures.ErrorCalledMro`).
- Struct names can take the place of imported and built-in names, in the struct's own methods and in every other
  definition of the file, and two definitions can share a name: nothing keeps the input and the output of a skill from
  doing so. `RustContract.FileCompilesExactly`, `PythonLoading.ModuleWorksExactly` and
  `TypeScriptContract.ModuleParsesExactly` give the conditions; the inputs are `Failures.StructCalledLikeType`
  (`HashMap`, `String`), `Failures.ClassCalledLikeGlobal` (`ipc`, `StopIteration`), `Failures.ClassCalledLikeImport`
  (`dataclasses`, `ClassVar`), `Failures.ClassCalledArrow` and `Failures.SharedName`.
- Pascal case is not injective on accepted error names (`ErrorEnum.PascalCollidesExactly`), and turns `SELF` into the
  keyword `Self` (`ErrorEnum.SelfIsAcceptedButDoesNotCompile`).
- An empty Python literal followed by a quote opens a long string; no generator puts a quote there
  (`Literals.PythonRoundTrip`).
- With a fixed zero dimension the TypeScript check would be weaker than the other two; the validator forbids one
  (`Shape.ChecksAgreeExactly`).
- The usage example of the credit controller starts with 100 credits, more than the 16 slots of the queue can hold
  without loss (`Flow.SafeWindows`).
- Tokens of different processes, and of clocks beyond 64 bits of nanoseconds, can collide; agreement needs distinct
  nonces (`Tokens.LateClocksCollide`, `HandshakeRuns.SharedNonceConfusesPeers`).
- An acknowledgement decodes as a hello, so a server that is handed one records its sender's domain as its client's.
  The domains of an agreeing pair are crossed exactly if the server heard a hello, or else a message from the client's
  own domain; a hello is told from other messages by its rejection code and server nonce, which no server looks at
  (`HandshakeRuns.CrossedExactly`, `HandshakeRuns.CrossedByShape`, `HandshakeRuns.SwappedRolesConfusePeers`).

## Model

| member | source | states |
|---|---|---|
| `FileExchange.SafeFilesExchange` | crates/laicc/src/lib.rs:42-64 | in every accepted file whose definitions are safe, the generated Rust compiles, the generated Python module works, and every typed record of every struct survives all four ways from serializer to deserializer |
| `FileExchange.SafeFilesReachTypeScript` | crates/laicc/src/lib.rs:42-73 | and the TypeScript module parses, and its class receives every value of what either serializer writes, as row zero of the column that carries it |
| `FileExchange.SkillsAreTold` | crates/laicc/src/lib.rs:42-73 | in a file that compiles and loads, the constants of every skill's input and output give the skill's id, the file's version and their own direction, in all three languages |
| `FileExchange.ErrorsAreTold` | crates/laicc/src/codegen/rust_contract.rs:83-133 | name and code of every error belong together in the enums of all three languages |
| `FileExchange.Compile` | crates/laicc/src/lib.rs:42-73 | validation, then the three generators: exactly the accepted files are compiled, and the Rust generator answers unless an emitter panics |
| `SmallFile.SmallFileIsSafe` | crates/laicc/src/lib.rs:42-73 | the conditions can be met, in all three languages: by a file of two one-field structs, with any skill id and version that Rust takes |
| `SmallFile.SmallFileExchanges` | crates/laicc/src/lib.rs:42-64 | that file is compiled, and a record of it is written and read back |
| `RoundTrip.RustExchange` | crates/laicc/src/codegen/rust_serialize.rs:8-63 | Rust to Rust and to Python, for every accepted struct, typed record and set of names that the file defines, in whatever order maps are walked: the serializer compiles exactly when skill id and version have neither C1 controls nor characters that change the direction of text and no definition takes a name it uses; what it writes then, the Rust deserializer returns whenever it compiles, and the Python one exactly when the names are safe |
| `RoundTrip.PythonExchange` | crates/laicc/src/codegen/python_serialize.rs:8-51 | Python to Rust and to Python: the serializer writes exactly when no definition of the file takes a name it reads, and the same holds of what it wrote |
| `RoundTrip.CarriedRecordsAreDelivered` | crates/laicc/src/codegen/rust_deserialize.rs:12-62 | the same for every complete stream that carries the record, whoever wrote it and however its columns are ordered; whether the Rust compiles is decided by the struct, the contract, the names that the file defines and the constants that are imported |
| `RoundTrip.TypeScriptReceives` | crates/laicc/src/codegen/typescript_deserialize.rs:11-64 | such a stream also brings every value to the TypeScript class, as row zero of the column that carries it, if the names of fields and definitions are safe, and fails otherwise |
| `RoundTrip.EmissionExactly` | crates/laicc/src/codegen/rust_serialize.rs:176-219 | on accepted structs the only generator that can panic is the Rust serializer's, exactly when some field is a list of optionals |
| `RoundTrip.SafeOnCompleteStreams` | crates/laicc/src/codegen/python_deserialize.rs:15-54 | the Python condition in terms of field names, types, defaults and the names that the file defines |
| `RoundTrip.SchemasAgree` | crates/laicc/src/codegen/python_serialize.rs:53-103 | both serializers declare the same schema except for the names of a map's keys and values, and metadata for tensors alone |
| `RoundTrip.ComplaintsAgree` | crates/laicc/src/codegen/rust_deserialize.rs:30-87 | Rust and Python refuse a stream with the same complaint: no batch, another number of rows, a further batch, or the first of skill id, version and direction that is missing or different |
| `RoundTrip.OtherContractsAreRefused` | crates/laicc/src/codegen/python_deserialize.rs:58-78 | a stream that announces another skill id, version or direction is refused by all three deserializers |
| `RoundTrip.OtherTensorsAreRefused` | crates/laicc/src/codegen/python_deserialize.rs:204-249 | a tensor announced with another element type, rank or fixed size is refused by all three deserializers |
| `RoundTrip.OtherCountsAreRefused` | crates/laicc/src/codegen/python_deserialize.rs:26-46 | streams of other than one batch, or of other than one row, are refused by all three deserializers |
| `RoundTrip.FieldCalledBatch` | crates/laicc/src/codegen/rust_deserialize.rs:26-28 | counterexample: an accepted struct with a first field `batch`, whose Rust does not compile and whose Python fails on every stream |
| `Definitions.AcceptedDefinitions` | crates/laicc/src/codegen/rust_contract.rs:28-35 | what the validator says of a file holds of every struct and error block that the generators define for it |
| `Definitions.SkillsAreDefined` | crates/laicc/src/codegen/rust_contract.rs:28-35 | skill by skill, the file defines the input with direction `input`, the output with direction `output` and the enum named after the skill, if it has errors; and nothing else |
| `Definitions.EnumNamesCollideExactly` | crates/laicc/src/codegen/rust_contract.rs:83-84 | two skills' enums share a name exactly if the skills' names have the same canonical form; every enum's name ends in `Error` |
| `RustContract.GenerateStruct` | crates/laicc/src/codegen/rust_contract.rs:40-81 | struct, accessors and both functions, or a panic |
| `RustContract.GenerateRust` | crates/laicc/src/codegen/rust_contract.rs:11-38 | the items of every skill in order, unless an emitter panics on some field |
| `RustContract.FileCompilesExactly` | crates/laicc/src/codegen/rust_contract.rs:20-35 | the file compiles exactly if its definitions have distinct names, none of them an import or a name that some struct, function or enum uses, and every function and enum compiles, given the constants that are imported |
| `RustContract.AccessorsTell` | crates/laicc/src/codegen/rust_contract.rs:62-73 | `skill_id`, `version` and `direction` return the contract that the struct was generated for, which is what its serializer announces under the three keys |
| `PythonContract.EmitParameters` | crates/laicc/src/codegen/python_contract.rs:64-82 | fields with defaults are moved behind the others, in order |
| `PythonLoading.OrderExactly` | crates/laicc/src/codegen/python_contract.rs:52-82 | `dataclass` accepts the order of a class's fields exactly if no field with neither a default nor the name of an attribute stands behind one called `to_ipc`, `from_ipc` or `mro`, nor anywhere if a constant becomes a field |
| `PythonLoading.BodyExactly` | crates/laicc/src/codegen/python_deserialize.rs:14-18 | where no class is called `classmethod`, the class body gets past its decorator exactly if no defaulted field is; and then the class has every constant, every default and both methods |
| `PythonLoading.ConstantsKeptExactly` | crates/laicc/src/codegen/python_contract.rs:51-62 | the class attributes keep skill id, version and direction exactly if no default of such a name gives another value |
| `PythonContract.GeneratePython` | crates/laicc/src/codegen/python_contract.rs:11-35 | the classes of every skill in order |
| `PythonLoading.ModuleWorksExactly` | crates/laicc/src/codegen/python_contract.rs:16-103 | executed class by class, the module loads and leaves every class under its own name, with its constants, with `from_ipc` a class method and `to_ipc` a method, exactly if names are distinct, defaults are finite, the order of every class's fields is safe, no default takes `classmethod` or changes a constant, no field is called `to_ipc`, no error `mro`, and no class is called like a name that a later class statement reads |
| `PythonLoading.ClassesTell` | crates/laicc/src/codegen/python_contract.rs:51-62 | in a module that works, `SKILL_ID`, `VERSION` and `DIRECTION` of every class have the values of its contract |
| `PythonLoading.ParametersTell` | crates/laicc/src/codegen/python_contract.rs:64-82 | the constructor has one parameter for each field, whose default evaluates to the field's |
| `TypeScriptContract.GenerateTypeScript` | crates/laicc/src/codegen/typescript_contract.rs:15-34 | the classes and enums of every skill in order |
| `TypeScriptContract.ModuleParsesExactly` | crates/laicc/src/codegen/typescript_contract.rs:15-104 | the module parses exactly if no name is declared twice, except by enums without a common member, none is an import or helper, and every class parses |
| `TypeScriptContract.StaticsTell` | crates/laicc/src/codegen/typescript_contract.rs:115-126 | the static constants of every class have the values of its contract |
| `TypeScriptContract.ParametersTell` | crates/laicc/src/codegen/typescript_contract.rs:128-144 | the constructor has one parameter for each field, in order, whose default stands for the field's |
| `Failures.ListOfOptionals` | crates/laicc/src/codegen/rust_serialize.rs:176-219 | counterexample: an accepted struct on which the Rust generator panics |
| `Failures.NestedTensors` | crates/laicc/src/codegen/rust_deserialize_fields.rs:202-224 | counterexamples: accepted structs whose Rust deserializer does not compile, by type |
| `Failures.IntegerDefaultOfFloat` | crates/laicc/src/codegen/rust_types.rs:108-128 | counterexamples: the same by an integer default, whatever the integer |
| `Failures.InfiniteDefault` | crates/laicc/src/codegen/rust_types.rs:108-128 | counterexamples: accepted files with an infinite default, of which no target is of use |
| `Failures.ControlsInContract` | crates/laicc/src/codegen/mod.rs:41-97 | counterexamples: accepted files whose skill id or version has a C1 control or changes the direction of text, and whose Rust does not compile |
| `Failures.ControlsInDefault` | crates/laicc/src/codegen/rust_types.rs:108-128 | counterexamples: accepted structs whose string default has such a character, and whose Rust deserializer does not compile |
| `Failures.FieldCalledLikeConstant` | crates/laicc/src/codegen/rust_deserialize.rs:12-62 | counterexample: an accepted struct with a field `DECIMAL128_MAX_PRECISION`, whose Rust deserializer does not compile where a constant of that name is imported |
| `Failures.SharedName` | crates/laicc/src/codegen/rust_contract.rs:28-35 | counterexample: an accepted file whose input and output share a name, of which no target is of use |
| `Failures.StructCalledLikeType` | crates/laicc/src/codegen/rust_contract.rs:20-26 | counterexamples: accepted files with a struct `HashMap` or `String`, whose Rust does not compile |
| `Failures.ClassCalledLikeGlobal` | crates/laicc/src/codegen/python_deserialize.rs:20-46 | counterexamples: accepted structs `ipc` and `StopIteration`, whose Python deserializer fails on every stream |
| `Failures.ClassCalledLikeImport` | crates/laicc/src/codegen/python_contract.rs:16-21 | counterexamples: accepted files with a struct `dataclasses` or `ClassVar`, whose Python module does not work |
| `Failures.FieldCalledClassmethod` | crates/laicc/src/codegen/python_contract.rs:64-89 | counterexamples: accepted files with a defaulted field `classmethod`, whose Python module does not work |
| `Failures.FieldCalledToIpc` | crates/laicc/src/codegen/python_contract.rs:64-89 | counterexample: an accepted file with a field `to_ipc` before another, whose Python module does not work |
| `Failures.ErrorCalledMro` | crates/laicc/src/codegen/python_contract.rs:91-103 | counterexamples: accepted files with an error `mro`, whose Python module does not work |
| `Failures.ClassCalledArrow` | crates/laicc/src/codegen/typescript_contract.rs:15-34 | counterexample: an accepted file with a struct `arrow`, whose TypeScript does not parse |
| `RustTypes.TablesAgree` | crates/laicc/src/codegen/rust_types.rs:64-102 | the partial type tables are defined exactly on leaves, and array, builder, data type and dereferencing agree there |
| `RustTypes.DatatypeMatches` | crates/laicc/src/codegen/rust_types.rs:27-62 | the declared Arrow type of every type has the type's structure |
| `RustSerialize.PanicsExactly` | crates/laicc/src/codegen/rust_serialize.rs:129-219 | on supported types the column generator panics exactly on lists of optionals |
| `RustSerialize.EmitListColumn` | crates/laicc/src/codegen/rust_serialize.rs:176-219 | appends exactly the steps of a list column, or panics |
| `RustSerialize.EmitOptionalColumn` | crates/laicc/src/codegen/rust_serialize.rs:221-280 | appends exactly the steps of an optional column |
| `RustSerialize.EmitMapColumn` | crates/laicc/src/codegen/rust_serialize.rs:282-307 | appends exactly the steps of a map column |
| `RustSerialize.EmitToArrowColumn` | crates/laicc/src/codegen/rust_serialize.rs:129-174 | appends exactly the steps of a field's column |
| `RustSerialize.EmitSchema` | crates/laicc/src/codegen/rust_serialize.rs:65-116 | one schema field per field, in order |
| `RustSerialize.GenerateToArrowIpc` | crates/laicc/src/codegen/rust_serialize.rs:8-63 | emits the program of the struct exactly when no column panics |
| `RustEncoding.BuildAny` | crates/laicc/src/codegen/rust_serialize.rs:129-307 | wherever emission succeeds, the built column has the declared type and carries the value; only an optional's cell is null |
| `RustEncoding.BuildOptionalList` | crates/laicc/src/codegen/rust_serialize.rs:240-262 | an absent list is a null row, an empty list is an empty row |
| `RustEncoding.MapEntries` | crates/laicc/src/codegen/rust_serialize.rs:282-307 | a map column holds each pair once, in any iteration order |
| `RustEncoding.ContractMetadata` | crates/laicc/src/codegen/rust_serialize.rs:28-40 | the metadata literals are valid Rust exactly without C1 controls, and then announce the contract |
| `RustEncoding.NullableExactly` | crates/laicc/src/codegen/rust_serialize.rs:65-98 | a field is declared nullable exactly if the cell of some value of its type is null |
| `RustEncoding.ColumnMentions` | crates/laicc/src/codegen/rust_serialize.rs:129-307 | the type names that a column's steps mention are decided by the field's type |
| `RustEncoding.WriterCompilesExactly` | crates/laicc/src/codegen/rust_serialize.rs:8-63 | the serializer compiles exactly if the contract's texts have neither C1 controls nor characters that change the direction of text and no definition of the file takes a type or crate name it mentions |
| `RustEncoding.ProgramEncodes` | crates/laicc/src/codegen/rust_serialize.rs:8-63 | an emitted program runs exactly for plain contracts, and then its stream carries the record completely |
| `Records.CarryingBatch` | crates/laicc/src/codegen/rust_serialize.rs:43-62 | columns that carry the fields make a batch that is accepted and a stream that carries the record |
| `Records.AcceptedStructsAreCompilable` | crates/laicc/src/validate.rs:58-97 | what the validator guarantees the generators |
| `RustDeserialize.DeserializerNeverPanics` | crates/laicc/src/codegen/rust_deserialize_fields.rs:124-358 | the deserializer's generator meets no unsupported type |
| `RustDeserialize.EmitTensorMetadataValidation` | crates/laicc/src/codegen/rust_deserialize_fields.rs:43-122 | element type, rank and one check per fixed dimension, in order |
| `RustDeserialize.EmitFieldExtraction` | crates/laicc/src/codegen/rust_deserialize.rs:89-130 | appends exactly the block of the field |
| `RustDeserialize.GenerateFromArrowIpc` | crates/laicc/src/codegen/rust_deserialize.rs:12-87 | guards, one binding per field and the struct expression, in order |
| `RustDecoding.BlockTypeExactly` | crates/laicc/src/codegen/rust_deserialize_fields.rs:124-358 | a field's block has the Rust type of its struct field exactly if no tensor sits two containers deep |
| `RustDecoding.BlocksCompileExactly` | crates/laicc/src/codegen/rust_deserialize.rs:132-212 | a block compiles exactly if its type is readable and its default is a literal of the field's type: no integer for a float, nothing that overflows, and no text with C1 controls or a change of direction |
| `RustDecoding.BlockReadsExactly` | crates/laicc/src/codegen/rust_deserialize_fields.rs:6-366 | the type names that a field's block mentions are decided by the field's type |
| `RustDecoding.CompilesExactly` | crates/laicc/src/codegen/rust_deserialize.rs:12-62 | the emitted function compiles exactly if the contract's texts compile as literals, every block compiles, no field takes the name of a prelude pattern or an imported constant, only the last may be called `batch`, and no definition of the file takes a name that the struct or the function uses |
| `RustDecoding.TensorChecksRun` | crates/laicc/src/codegen/rust_deserialize_fields.rs:66-122 | the tensor checks pass exactly on the declared element type, rank and fixed sizes |
| `RustDecoding.MapIsRead` | crates/laicc/src/codegen/rust_deserialize_fields.rs:315-366 | the insertion loop rebuilds the map from its pairs in any order |
| `RustReading.ScalarPresent` | crates/laicc/src/codegen/rust_deserialize.rs:132-212 | a present scalar is read from its own column |
| `RustReading.ScalarAbsent` | crates/laicc/src/codegen/rust_deserialize.rs:132-175 | an absent scalar takes its default |
| `RustReading.TensorDecodes` | crates/laicc/src/codegen/rust_deserialize_fields.rs:21-41 | a tensor is read after its checks |
| `RustReading.ListDecodes` | crates/laicc/src/codegen/rust_deserialize_fields.rs:124-224 | lists, also of optionals and tensors, are read item by item |
| `RustReading.OptionalDecodes` | crates/laicc/src/codegen/rust_deserialize_fields.rs:226-313 | a null row is absent, an empty list is not |
| `RustReading.MapDecodes` | crates/laicc/src/codegen/rust_deserialize_fields.rs:315-366 | maps are read back |
| `RustReading.FieldDecodes` | crates/laicc/src/codegen/rust_deserialize_fields.rs:6-366 | every block that compiles reads the value its stream provides |
| `RustBodies.GuardsPassExactly` | crates/laicc/src/codegen/rust_deserialize.rs:64-87 | the metadata guards pass exactly on the contract's own metadata, and otherwise report the first key that is missing or different |
| `RustBodies.BodyDecodes` | crates/laicc/src/codegen/rust_deserialize.rs:12-62 | a deserializer that compiles returns the record of every stream that carries one, whatever the order of columns |
| `RustBodies.FieldRead` | crates/laicc/src/codegen/rust_deserialize_fields.rs:21-358 | a successful read means the column is there, has the declared type and announces the declared tensor |
| `RustBodies.BodyRefuses` | crates/laicc/src/codegen/rust_deserialize.rs:30-87 | every stream read has one batch of one row, announces the contract and honors every field |
| `PythonValues.ToPyInjective` | crates/laicc/src/codegen/python_types.rs:7-20 | records of supported types are told apart by their Python attributes |
| `PythonValues.EncodedLiteralIsRead` | crates/laicc/src/codegen/mod.rs:99-110 | every emitted bytes expression evaluates to the text it was made from |
| `PythonSerialize.GenerateToIpc` | crates/laicc/src/codegen/python_serialize.rs:8-131 | schema, metadata and dictionary entries of the struct, in order |
| `PythonEncoding.PyArrowTypeMatches` | crates/laicc/src/codegen/python_types.rs:23-40 | the PyArrow type of every type has the type's structure |
| `PythonEncoding.ValueConverts` | crates/laicc/src/codegen/python_serialize.rs:117-131 | every typed attribute converts to a cell that carries it |
| `PythonEncoding.NullableExactly` | crates/laicc/src/codegen/python_serialize.rs:53-89 | a field is declared nullable exactly if the cell of some value of its type is null |
| `PythonEncoding.ProgramEncodes` | crates/laicc/src/codegen/python_serialize.rs:8-51 | the emitted program runs exactly if no class takes a name it reads, and then its stream carries the record completely |
| `PythonDeserialize.EmitTensorMetadataValidation` | crates/laicc/src/codegen/python_deserialize.rs:204-249 | element type, rank and one check per fixed dimension, in order |
| `PythonDeserialize.EmitScalarExtraction` | crates/laicc/src/codegen/python_deserialize.rs:101-139 | the statements of a scalar, with and without a default |
| `PythonDeserialize.EmitFieldExtraction` | crates/laicc/src/codegen/python_deserialize.rs:80-202 | the statements of any field |
| `PythonDeserialize.GenerateFromIpc` | crates/laicc/src/codegen/python_deserialize.rs:8-56 | header, guards, fields and the arguments of the class, in order |
| `PythonDecoding.TensorChecksRun` | crates/laicc/src/codegen/python_deserialize.rs:204-249 | the tensor checks pass exactly on the declared element type, rank and fixed sizes, with `batch`, `int` and `len` in reach |
| `PythonDecoding.CellReads` | crates/laicc/src/codegen/python_deserialize.rs:141-192 | a carried cell reads as the attribute it carries |
| `PythonDecoding.FieldRuns` | crates/laicc/src/codegen/python_deserialize.rs:80-202 | each field's statements bind the field to its own value, and nothing else, exactly when neither a field nor a class takes a name they read and the default is finite |
| `PythonDecoding.FieldNeedsBatch` | crates/laicc/src/codegen/python_deserialize.rs:80-202 | once `batch` is rebound every further field fails |
| `PythonBodies.HeaderExactly` | crates/laicc/src/codegen/python_deserialize.rs:20-78 | the header passes exactly on one batch of one row that announces the contract, if no field and no class is called `ipc` or `StopIteration`, and otherwise reports what is wrong first |
| `PythonBodies.BodyDecodesExactly` | crates/laicc/src/codegen/python_deserialize.rs:8-56 | on every stream that carries a record: that record if the names of the fields and of the module's classes are safe, failure otherwise |
| `PythonBodies.BodyRefuses` | crates/laicc/src/codegen/python_deserialize.rs:26-78 | every stream read has one batch of one row, announces the contract and honors every field |
| `TypeScriptDeserialize.EmitFieldExtraction` | crates/laicc/src/codegen/typescript_deserialize.rs:66-129 | the declarations and reads of any field |
| `TypeScriptDeserialize.EmitScalarExtraction` | crates/laicc/src/codegen/typescript_deserialize.rs:131-176 | the declarations and reads of a scalar, with and without a default |
| `TypeScriptDeserialize.GenerateFromIpc` | crates/laicc/src/codegen/typescript_deserialize.rs:11-64 | opening, guards, fields, the parameters of the class and its arguments, in order |
| `TypeScriptLocals.FieldRuns` | crates/laicc/src/codegen/typescript_deserialize.rs:66-176 | each field's statements bind its variable to its own column, or to the constant that its default evaluates to, and change no other name, exactly when the outer names they read are not taken and the helpers let the field pass |
| `TypeScriptLocals.TensorCheckRuns` | crates/laicc/src/codegen/typescript_deserialize.rs:178-193 | the tensor check passes exactly on the declared element type, rank and fixed sizes, with its helper in reach |
| `TypeScriptBodies.GuardsRun` | crates/laicc/src/codegen/typescript_deserialize.rs:43-54 | the three guards pass exactly on the contract's own metadata, with their helper in reach |
| `TypeScriptBodies.BodyBindsExactly` | crates/laicc/src/codegen/typescript_deserialize.rs:22-62 | run statement by statement, the body binds every field to its own column or default exactly when no name is declared twice, no outer name it reads is taken by a variable or a class, and the stream has one batch of one row, announces the contract and honors every field; on everything else it fails |
| `TypeScriptBodies.BodyDeliversExactly` | crates/laicc/src/codegen/typescript_deserialize.rs:22-62 | on every stream that carries a record the constructor gets, at the place of each field, row zero of the column that carries the value, or a constant that stands for it |
| `TypeScriptBodies.ClashesExactly` | crates/laicc/src/codegen/typescript_deserialize.rs:131-193 | a name is declared twice exactly when a field is called like one of the body's variables or like a companion of another field |
| `TypeScriptBodies.CompanionCaptured` | crates/laicc/src/codegen/typescript_deserialize.rs:159-175 | counterexample: the accepted struct with `x` beside `x_column` is a syntax error |
| `Validate.TypesAcceptedExactly` | crates/laicc/src/validate.rs:99-245 | the mutually recursive constraints accept exactly six shapes of types |
| `Validate.DefaultsAcceptedExactly` | crates/laicc/src/validate.rs:247-300 | a default is accepted exactly when its value inhabits the field's type |
| `Validate.ValidateField` | crates/laicc/src/validate.rs:90-97 | accepts exactly the good fields, and otherwise reports the first thing wrong with the field |
| `Validate.ValidateStruct` | crates/laicc/src/validate.rs:58-88 | accepts exactly the good structs, and otherwise reports the first offence: the struct's name, no fields, or the first field that is bad or repeats a name |
| `Validate.ValidateErrors` | crates/laicc/src/validate.rs:302-333 | accepts exactly distinct, unreserved names with distinct, nonzero codes, and otherwise reports the first offence of the first bad error |
| `Validate.Validate` | crates/laicc/src/validate.rs:13-56 | accepts exactly the files that meet the declarative conditions, and otherwise reports the first violation in the file |
| `Validate.BlameIsUnique` | crates/laicc/src/validate.rs:13-56 | no accepted file has a first violation, and no file has two |
| `Shape.ParsersInvertFormat` | crates/laicc/src/codegen/python_serialize.rs:105-114 | the three shape parsers recover the announced sizes from every printed shape |
| `Shape.NumbersAreRead` | crates/laicc/src/codegen/rust_deserialize_fields.rs:84-122 | a size that another producer wrote with white space, zeros or a sign: all three parsers read it without a sign and with a plus, Rust up to 64 bits, and only Rust refuses a minus |
| `Shape.AssertTensorShape` | crates/laicc/src/codegen/typescript_contract.rs:90-103 | the index loop reports a mismatch exactly if there is one, and then the first |
| `Shape.ChecksOnPrintedShapes` | crates/laicc/src/codegen/rust_deserialize_fields.rs:84-122 | on every printed shape the Rust and Python checks mean equal rank and equal fixed sizes |
| `Shape.ChecksAgreeExactly` | crates/laicc/src/codegen/typescript_types.rs:96-108 | all three checks agree on all printed shapes exactly if no dimension is fixed to zero |
| `Literals.EscapeStringLiteralBody` | crates/laicc/src/codegen/mod.rs:41-90 | the loop escapes character by character |
| `Literals.EscapedIsOneLine` | crates/laicc/src/codegen/mod.rs:41-90 | an escaped text has no control, line separator or paragraph separator |
| `Literals.EscapeIsNeededExactly` | crates/laicc/src/codegen/mod.rs:41-90 | a text is changed exactly if it has one of these, a backslash or a quote |
| `Literals.PythonRoundTrip` | crates/laicc/src/codegen/mod.rs:99-104 | Python reads every literal back, with any text behind it, except an empty literal before a quote |
| `Literals.JsRoundTrip` | crates/laicc/src/codegen/mod.rs:112-114 | JavaScript reads every literal back, with any text behind it |
| `Literals.RustRoundTrip` | crates/laicc/src/codegen/mod.rs:92-97 | Rust reads a literal back exactly if the string has no C1 control, and otherwise rejects it |
| `Newlines.NormalizeIsOneScan` | crates/laicc/src/parser.rs:51-56 | the two replacements are one scan |
| `Newlines.NormalizeIsStable` | crates/laicc/src/parser.rs:51-56 | no carriage return is left, and text without one is left alone |
| `Newlines.LineEndingsDoNotMatter` | crates/laicc/src/parser.rs:46-56 | LF, CRLF and CR renderings of the same lines give the same default |
| `Newlines.SameDefaultEverywhere` | crates/laicc/src/parser.rs:310-315 | and all three generated programs read that default |
| `ErrorEnum.PascalCollidesExactly` | crates/laicc/src/codegen/mod.rs:29-39 | two names share a variant exactly if they have the same canonical form |
| `ErrorEnum.TidyNamesInvert` | crates/laicc/src/codegen/mod.rs:29-39 | an explicit inverse on upper-case names whose segments start with a letter |
| `ErrorEnum.GenerateErrorEnum` | crates/laicc/src/codegen/rust_contract.rs:83-133 | discriminants, arms of `from_code` and arms of `name`, in order |
| `ErrorEnum.EnumAccessors` | crates/laicc/src/codegen/rust_contract.rs:83-133 | the enum compiles exactly if canonical names differ and none is `SELF`, and then `from_code`, `code` and `name` invert each other and refuse unknown codes |
| `ErrorEnum.TidyNamesCompile` | crates/laicc/src/codegen/rust_contract.rs:83-133 | tidy error blocks compile exactly if no error is called `SELF` |
| `ErrorEnum.SelfIsAcceptedButDoesNotCompile` | crates/laicc/src/validate.rs:375-392 | counterexample: the reserved words have `self` and `Self`, but not `SELF` |
| `ErrorEnum.DoubledUnderscoresCollide` | crates/laicc/src/validate.rs:302-333 | counterexamples: accepted pairs of names with one variant |
| `TypeSyntax.ParseDimList` | crates/laicc/src/parser.rs:239-247 | the loop converts every dimension or reports the first that fails |
| `TypeSpelling.MatchesExactly` | crates/laicc/src/laic.pest:3-56 | the grammar of types, complete: the matcher reads a tree off the front of a text and leaves the rest exactly if the text is a spelling of the tree, with anything made of white space and comments between its tokens, and the rest |
| `TypeSpelling.GapsDoNotMatter` | crates/laicc/src/laic.pest:3-56 | every spelling of a type parses to the type, whatever white space and comments stand between its tokens |
| `TypeSpelling.IdentifiersExactly` | crates/laicc/src/laic.pest:58 | identifiers are ASCII letters, digits and underscores, and start with a letter |
| `TypeSpelling.ErrorsAreSizes` | crates/laicc/src/parser.rs:158-274 | the only error that a text of a type can end with is a size that does not fit 64 bits, and it names such a size |
| `TypeSpelling.ParseInvertsFormat` | crates/laicc/src/laic.pest:28-52 | matching a printed type, with any text behind it, gives its tree and that text |
| `TypeSyntax.TreesConvertBack` | crates/laicc/src/parser.rs:158-274 | the tree of a type converts to the type |
| `TypeSpelling.RoundTripsExactly` | crates/laicc/src/main.rs:188-226 | printing is inverted by parsing exactly on the types that some text parses to |
| `Header.HeaderSlices` | crates/laic/src/protocol/header.rs:104-114 | the layout holds every field at its offset, in its width, least significant byte first |
| `Bytes.LeBytes` | crates/laic/src/protocol/header.rs:104-114 | byte `k` of a little-endian number has weight 256 to the `k` |
| `Header.DecodesExactly` | crates/laic/src/protocol/header.rs:126-171 | decoding accepts exactly the buffers of forty bytes and more that start with 43 49 41 4C 01 00 and have a known format and quality of service, and otherwise reports the first of these that fails |
| `Header.Encode` | crates/laic/src/protocol/header.rs:79-118 | writes the forty bytes over the buffer's start and nothing else, or leaves it alone and says why |
| `Header.DecodeInvertsEncode` | crates/laic/src/protocol/header.rs:126-171 | decoding the layout of any header reports what the sender's checks report, and returns the header if they pass |
| `Header.EncodeInvertsDecode` | crates/laic/src/protocol/header.rs:126-171 | what decoding accepts, encoding writes back byte for byte |
| `Messages.Message.New` | crates/laic/src/protocol/message.rs:40-78 | a valid message with the given type, id, format, quality and payload, no flags, no grant and no correlation |
| `Messages.Message.FromParts` | crates/laic/src/protocol/message.rs:88-115 | accepts exactly what passes the header checks with a matching length |
| `Messages.Message.SetCreditGrant` | crates/laic/src/protocol/message.rs:134-141 | sets the grant, and the flag exactly when it is positive |
| `Messages.Message.SetEndOfStream` | crates/laic/src/protocol/message.rs:158-160 | sets the flag and keeps the message valid |
| `Messages.Message.ClearEndOfStream` | crates/laic/src/protocol/message.rs:163-165 | clears the flag and keeps the message valid |
| `Messages.ReachableMessages` | crates/laic/src/protocol/message.rs:40-165 | after any history of setters the message passes `from_parts` and `encode`, has the type, id, format, quality and payload it was made with, and its correlation, grant and flag bits are those of the last setter of each kind |
| `Messages.LengthsAreCheckedLast` | crates/laic/src/protocol/message.rs:88-115 | a wrong length is reported only where the header is right, with both lengths |
| `Framing.WriteFrame` | crates/laic/src/transport/framing.rs:35-75 | appends the frame, or rejects the message and leaves the stream as it was |
| `Framing.ReadFrame` | crates/laic/src/transport/framing.rs:83-121 | returns what the front of the stream holds and consumes exactly that |
| `Framing.ReadInvertsWrite` | crates/laic/src/transport/framing.rs:35-121 | a written frame reads back, with anything behind it |
| `Framing.WritesExactlyTheReadable` | crates/laic/src/transport/framing.rs:35-75 | a message is written exactly if its payload is at most 64 MiB, and what is not written a reader would refuse with the same error |
| `Framing.WriteInvertsRead` | crates/laic/src/transport/framing.rs:83-121 | what is read re-encodes to the identical bytes |
| `Framing.ReadsExactlyFrames` | crates/laic/src/transport/framing.rs:83-121 | a read succeeds exactly if the stream begins with a frame |
| `Framing.FailedReads` | crates/laic/src/transport/framing.rs:83-121 | a failed read reports what is wrong, and has consumed the header alone, or the whole of a stream that was too short |
| `Framing.StrictPrefixFails` | crates/laic/src/transport/framing.rs:83-121 | every strict prefix of a frame fails |
| `Framing.ReadAllInvertsStream` | crates/laic/src/transport/framing.rs:35-121 | any sequence of messages reads back |
| `Framing.StreamInvertsReadAll` | crates/laic/src/transport/framing.rs:83-121 | a stream that reads to its end is the encoding of what was read |
| `Framing.TruncatedStream` | crates/laic/src/transport/framing.rs:83-121 | a cut stream delivers the messages written in full, then an error unless the cut is between frames |
| `IpcQueue.IpcConnection.Send` | crates/laic/src/transport/ipc.rs:281-320 | publishes one padded frame, or nothing |
| `IpcQueue.IpcConnection.Poll` | crates/laic/src/transport/ipc.rs:333-411 | takes the oldest frame and rebuilds its message, or reports the subscriber's failure and takes nothing |
| `IpcQueue.FrameRoundTrip` | crates/laic/src/transport/ipc.rs:281-411 | the receiver gets header and payload back, and no padding |
| `IpcQueue.FrameIsPadded` | crates/laic/src/transport/ipc.rs:299-306 | frames have forty and 65,536 bytes, zeros behind the payload |
| `IpcQueue.FramesReadExactly` | crates/laic/src/transport/ipc.rs:359-376 | a frame is read as a message exactly if its header can be decoded and announces no more than the frame holds, and otherwise the error says which failed |
| `IpcQueue.SendSucceedsExactly` | crates/laic/src/transport/ipc.rs:281-320 | after any history, a send of a well-formed message succeeds exactly if the connection has not been closed, the payload is at most 65,536 bytes and the publisher publishes; a closed connection says so, and a send that fails changes nothing |
| `IpcQueue.ReceiveSucceedsExactly` | crates/laic/src/transport/ipc.rs:333-411 | after any history, a poll returns a sent message exactly if the connection has not been closed, the subscriber does not fail and a frame is there |
| `IpcQueue.NothingIsSentAfterClose` | crates/laic/src/transport/ipc.rs:281-284 | once the sender has closed, no continuation sends anything or adds to the buffer |
| `IpcQueue.NothingIsReceivedAfterClose` | crates/laic/src/transport/ipc.rs:345-348 | once the receiver has closed, no continuation receives anything |
| `IpcQueue.RunDeliversInOrder` | crates/laic/src/transport/ipc.rs:25-32 | in every run: an in-order, at-most-once subsequence of the successful sends arrives unaltered, and the buffer keeps the newest sixteen unread |
| `Flow.CreditController.Acquire` | crates/laic/src/flow.rs:56-64 | takes one credit, or reports exhaustion |
| `Flow.CreditController.Replenish` | crates/laic/src/flow.rs:66-70 | saturating addition |
| `Flow.GrantsAddUp` | crates/laic/src/flow.rs:66-70 | credits, however portioned, add up to their sum, or else to the maximum |
| `Flow.RunConserves` | crates/laic/src/flow.rs:23-38 | in every run, with failed sends and lost grants, every credit of the window is available, queued, ungranted, in flight or lost |
| `Flow.CollectIsExact` | crates/laic/src/flow.rs:66-70 | the saturating addition never drops a credit |
| `Flow.SafeWindows` | crates/laic/src/transport/ipc.rs:85-89 | no run loses a message exactly if the window is at most sixteen |
| `Flow.StalledOnlyByLoss` | crates/laic/src/flow.rs:23-38 | after any run the sender can get a credit again exactly if not all of the window is lost |
| `Tokens.HandshakeCounter.NextToken` | crates/laic/src/handshake.rs:486-495 | one draw of the counter mixed with the clock |
| `Tokens.TokenHalves` | crates/laic/src/handshake.rs:486-495 | for 64-bit clocks a token is the counter in eight bytes and the clock in eight bytes, big-endian |
| `Tokens.FirstToken` | crates/laic/src/handshake.rs:486-495 | the first token of a process whose clock is set before the epoch |
| `Tokens.TokenDeterminesDraw` | crates/laic/src/handshake.rs:486-495 | through exclusive or, shift and big-endian bytes a token determines counter and clock, for 64-bit clocks |
| `Tokens.DrawsAreDistinct` | crates/laic/src/handshake.rs:486-495 | the first 2^64 tokens of a process are pairwise distinct, for all clocks of 64 bits |
| `Tokens.LateClocksCollide` | crates/laic/src/handshake.rs:486-495 | counterexample past 64-bit clocks |
| `Handshake.ClientHandshake` | crates/laic/src/handshake.rs:168-222 | sends one hello and concludes from the next message, whatever the clock |
| `Handshake.ServerHandshake` | crates/laic/src/handshake.rs:224-273 | reacts to one hello, drawing tokens only on success, whatever the clock |
| `Handshake.ServerAcceptsExactly` | crates/laic/src/handshake.rs:224-342 | the server accepts exactly a protobuf control message with a nonce of sixteen bytes, its own version and a domain, the expected one if one is expected; and what the session then holds |
| `Handshake.ServerAnswersExactly` | crates/laic/src/handshake.rs:224-273 | the server answers exactly readable hellos with a nonce of sixteen bytes, and every answer echoes the nonce and says what the server concluded |
| `Handshake.ServerErrorsAreTrue` | crates/laic/src/handshake.rs:289-342 | every error of the server is true of the hello, a domain is found fault with only where the version is right, and a version only where there is a domain |
| `Handshake.ClientAcceptsExactly` | crates/laic/src/handshake.rs:181-222 | the client accepts exactly a protobuf control message of its own version that rejects nothing, echoes its nonce, carries session material and names a domain, the expected one if one is expected |
| `Handshake.ClientErrorsAreTrue` | crates/laic/src/handshake.rs:181-222 | every error of the client is true of what it received |
| `Handshake.AcceptedAck` | crates/laic/src/handshake.rs:181-222 | what an accepted acknowledgement must contain |
| `Handshake.HelloIsNotAnAck` | crates/laic/src/handshake.rs:344-429 | a hello in place of an acknowledgement is never accepted |
| `Handshake.RepliesAreWellShaped` | crates/laic/src/handshake.rs:403-429 | every acknowledgement a server sends passes the shape check |
| `Handshake.VersionErrorsComeFromTheVersionCheck` | crates/laic/src/handshake.rs:344-401 | the version error inside the rejection check cannot surface from the client |
| `Handshake.HonestOutcomes` | crates/laic/src/handshake.rs:181-272 | the outcome table of an undisturbed handshake: both agree, with the same code, except that a client may reject the server's domain after the server accepted |
| `HandshakeRuns.RunIsConsistent` | crates/laic/src/handshake.rs:168-273 | in every run, also where the two draws of a server are interleaved with others, each message is what its sender sent, each session what its checks allow, and no draw is used twice |
| `HandshakeRuns.SessionsKnowTheirPeers` | crates/laic/src/handshake.rs:168-273 | in every run, each session of a client or server names both domains, neither empty, and the remote one is the expected one |
| `HandshakeRuns.InjectiveAgreement` | crates/laic/src/handshake.rs:168-273 | with distinct client nonces, every successful client session matches a server session with equal version, nonces and id, whose local domain is the client's remote one; no two client sessions share one; with distinct ids no client session matches two; and the server recorded the client's own domain exactly if it heard a hello or a message of that domain |
| `HandshakeRuns.ShapeTellsOrigin` | crates/laic/src/handshake.rs:289-321 | what a server heard was sent as a hello exactly if it has no rejection code and no server nonce |
| `HandshakeRuns.CrossedByShape` | crates/laic/src/handshake.rs:224-273 | if no domain runs both clients and servers, that test decides whether the domains of an agreeing pair are crossed |
| `HandshakeRuns.OneProcessIsEnough` | crates/laic/src/handshake.rs:486-495 | within one process the hypotheses hold for 2^64 draws and clocks of 64 bits |
| `HandshakeRuns.OthersAcksAreRefused` | crates/laic/src/handshake.rs:191-194 | an acknowledgement of another hello is refused |
| `HandshakeRuns.SharedNonceConfusesPeers` | crates/laic/src/handshake.rs:486-495 | counterexample: two processes that draw the same nonce |
| `HandshakeRuns.SwappedRolesConfusePeers` | crates/laic/src/handshake.rs:289-321 | counterexample: an acknowledgement taken for a hello, since both decode from the same fields; the recorded domain is wrong unless client and first server share theirs |

## Left out

- Arrow IPC bytes and protobuf: batches and handshake messages are values, and their encodings are taken to be faithful.
- Streams that break in the middle of a batch, and the errors of real sockets, files and shared memory; whether a publisher accepts a frame is a parameter.
- Batches that repeat a column name: all readers are taken to use the first such column, although PyArrow refuses them.
- Polling intervals, the active-poll budget, timing diagnostics, environment variables, message ids of handshakes.
- The TypeScript serializer, how Arrow decodes a row in TypeScript, and TypeScript's type checker; error enums of one name are taken to merge.
- `RustReading.ScalarAbsent`: says nothing about an integer default of a float field or a float default narrowed to 32 bits, because floats are kept as bit patterns and are not computed with.
- Printing and parsing of float literals.
- `Literals.PythonRoundTrip`: the lexer does not read escapes by character name, which need the Unicode name table and which the escaper never emits.
- `Shape.ChecksAgreeExactly`: sizes stay below 2^53, because beyond that a JavaScript number is not exact.
- `RoundTrip.OtherTensorsAreRefused`: in TypeScript too sizes are exact integers, although two sizes beyond 2^53 can round to one JavaScript number.
- White space outside ASCII in shape strings, and case mapping outside ASCII in error names; the grammar admits neither.
- Traits of the Arrow crates: a struct called like one, such as `Array`, takes it out of scope, and what that breaks is decided inside those crates.
- Which constants the Arrow crates have: a parameter of the Rust conditions.
- Python classes that are called, as a decorator, where a class of the module is called `classmethod`: the module does not work then, and only whether the call raises is followed.
- Built-in classes that are only read on a failing path, such as `ValueError` and `Error`: a class of that name changes the error, not the failure.
- Numeric limits of the machine, such as a batch of more rows than fit a machine word.
- Error display texts, retryability, code tables, pattern constructors, the emergency channel, the gateway, the command line.
- The grammar outside types: skills, structs and error blocks are taken as parsed.
