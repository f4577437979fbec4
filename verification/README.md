# XPLMServer, verified in Dafny

XPLMServer is an X-Plane plugin. Clients send JSON requests over UDP to register datarefs
under names, read and set them, subscribe to them, or hold them constant. Every frame the
plugin re-applies the constants and exports the subscribed values. FlightFactor A320 datarefs
are written only inside FlightFactor's own update callback.

The project models the plugin in layers and proves each against the one before.

* **What happens**, as functions on values: rounding to float and double (`Rounding`), numbers
  as text (`Numerals`, `Texts`), JSON trees (`JsonTree`), the simulator's store (`Simulation`), reading
  and writing one dataref (`Datarefs`, `ArrayText`, `FlightFactor`), the maps of the manager as a
  step machine over an operation log (`Registry`), frames (`System`, `Overlay`, `Frames`),
  callbacks (`Requests`, `Csv`, `CallbackTable`), whole runs (`Runs`, `Guarantees`, `Retirement`,
  `Targets`, `Origins`), what is read back of what was written (`RoundTrips`, `Accuracy`,
  `RealTrips`, `ArrayWrites`, `Replies`, `FlightRoundTrips`) and the network side (`Server`,
  `Broadcasts`).
* **What a client sees**, in literal documents and packets: the operations by name (`Protocol`),
  conversations that register, set and read (`Conversations`, `FlightTalks`), access by link
  (`DirectAccess`) and what is in each packet sent (`Packets`). These speak of the JSON fields, the
  memory and the numbers themselves, and not of the functions that compute them.
* **The program**: the classes `Dataref`, `FFDataref`, `CallbackManager` and `Plugin`, and the
  callbacks of `Callbacks`, with the source's fields, loops and in-place updates. Each method's
  postcondition ties the new state of the objects to the functions above. References are real
  references: `subscribed` and `consts` hold the objects that `named` held when they were added.
  `Server.Live` makes the objects and serves any sequence of calls, so the whole program is one
  run of the functions.

Memory is a map from locations (element i of a dataref, or a FlightFactor id) to values. A
write is a patch computed without looking at the memory, so two names for one link alias in
the model as they do in the simulator.

A result `Abort` stands for a call that does not return normally: an exception nobody catches
(`std::stoi` on text that is no number, `std::stod` out of range, a JSON field of the wrong type,
a malformed packet), or
an operation C++ leaves undefined (division by a factor that truncates to zero, a CSV row with
too few fields, text that fills its whole buffer).

## Assumptions

* nlohmann::json is not part of this model. `JsonTree.Faithful` is what is used of it: dumped text
  is not empty, and parsing it gives the tree back. The text it dumps for an array of doubles, in
  their shortest decimal form, is any function of the doubles.
* The X-Plane SDK and the FlightFactor API are not part of this model. Links, ids, types, names,
  descriptions, capacities and writability do not change; writes are clipped to the capacity;
  access as another type than the stored one reads zero and writes nothing.
* 32-bit integers wrap in a multiplication, as compilers make them.
* float and double are binary32 and binary64 of IEEE 754. Text, products, quotients and
  conversions are rounded to the nearest value, ties to even, and overflow to infinity; `stof` and
  `stod` throw when the text denotes a number that overflows or that is lost to zero. C leaves open
  whether a subnormal result is a range error; here it is none. Products of floats are rounded to
  float.
* FF320Callback may run at any time in the runs; the simulator may change any memory in between.

## What a reader may not expect of the code

* Subscribing a name again still increments the counter (`Registry.CounterHistory`,
  `Registry.SubscribingTwiceCountsTwice`).
* A constant survives the unregistration of its name. On an X-Plane dataref it keeps being
  written; on a FlightFactor dataref it never reaches the simulator again
  (`Guarantees.PlainConstantOutlivesItsName`, `Guarantees.FlightConstantDiesWithItsName`).
* A FlightFactor dataref once set is written in every later frame: `m_needUpdate` is never
  cleared (`Targets.PendingHistory`, `Targets.LastRequestIsWritten`).
* Setting a FlightFactor value that is neither int, float nor double returns success and never
  has an effect (`Guarantees.SharedStays`).
* Only `std::invalid_argument` is caught when a target is pushed, and nothing when a dataref is
  set, so a number out of range stops the frame, or the constant pass
  (`Frames.OnlyOutOfRangeStops`; `Frames.HugeTargetStopsFrame` and `Frames.HugeConstantStopsPass`
  are inputs).
* `Dataref.h` (line 98) promises a factor applied on get and, as a division, on set. A JSON
  array written to an array dataref is not divided, so it reads back iff the factor is one
  (`RoundTrips.ArrayIsLosslessIffFactorOne`, `RealTrips.RealArrayIsLosslessIffFactorOne`;
  `RoundTrips.OneReadsTwo` is an input). FlightFactor datarefs apply it on get only too, and what
  was set reads back iff the factor is one (`FlightRoundTrips.IntegersReadBackIffFactorOne`,
  `FlightRoundTrips.RealsReadBackIffFactorOne`; `FlightRoundTrips.ThreeReadsSix` is an input).
* Six decimals are less than they seem. A float keeps them up to 16, a double below 2^33
  (`Numerals.SurvivesBelow`, `Accuracy.SixteenAndABit`), also at factor one
  (`FlightRoundTrips.FloatShortens` is an input); through another factor they come back below 4
  and 2^31 (`RealTrips.RealGetAfterSet`; `RealTrips.SevenMovesAFloat` and
  `RealTrips.SevenMovesTheSixthDecimal` are inputs in the next binades). A JSON number goes through
  float even on its way to a double dataref (`Replies.JsonNumberShortened`); the same digits as a
  string do not.
* Setting a float or double dataref to the very text it was just read as need not keep that text.
  It does below 4 and 2^31, and again from 16 and 2^33 on unless the text is a power of two
  (`RealTrips.RealSetAfterGet`, `RealTrips.ExactReplyReturns`; `RealTrips.ReplyMoves` and
  `RealTrips.PowerOfTwoMoves` are inputs where it does not). At factor one it always does
  (`RealTrips.RealStableAtFactorOne`).
* Reading an Int dataref and writing the text back restores it iff the factor is not zero and the
  scaled value fits an int (`RoundTrips.IntSetAfterGet`). On overflow the value is lost
  (`RoundTrips.OverflowLosesValue`). A factor such as "0.5" truncates to zero: the dataref reads
  "0" and the write, a division by zero, does not return (`RoundTrips.HalfFactorStopsWrites`).
* A float array differs from an integer array in more than its elements: a JSON string fills it
  with zeros (`RealTrips.StringZeroesRealArray`), a JSON integer is rejected
  (`RealTrips.IntegerIsNoReal`), and an "Offset" is divided by the factor, although it counts
  elements (`RealTrips.OffsetIsDivided`).
* A CSV row with type `UNKNWON` registers an unknown type where the request asks the SDK
  (`Requests.RowEqualsRequests`).
* The first `REG_FFDATA` on an unready interface only initialises it and returns 0x10. A later one
  leaves a "Type" or "Name" of the request in the reply, and its "Flag" is the type again.

## Model

| member | source | states |
|---|---|---|
| Registry.NamedHistory | DefaultCallbacks/src/Callbacks.cpp:75-148 | for any operation log, a name maps to the object registered by operation k iff k is its first registration since its last unregistration |
| Registry.NamedIsInjective | DefaultCallbacks/src/Callbacks.cpp:113-114 | in every reachable state no object is registered under two names |
| Registry.Coherent | CallbackManager/src/CallbackManager.cpp:196-220 | in every reachable state subscribed is a submap of named with the same objects |
| Registry.SubscribedHistory | DefaultCallbacks/src/Callbacks.cpp:150-170 | a name is subscribed iff some SUB was issued while it was registered and no UNSUB or UNREG of it came later |
| Registry.CounterHistory | CallbackManager/src/CallbackManager.cpp:196-220 | the counter is the number of subscriptions plus all redundant SUB calls ever made, modulo 2^32; without overflow it is never below the former and equal iff there was no redundant call |
| Registry.SubscribingTwiceCountsTwice | CallbackManager/src/CallbackManager.cpp:196-207 | after REG, SUB, SUB of one name there is one subscription and the counter is two |
| Registry.ConstIffEffective | CallbackManager/src/CallbackManager.cpp:227-249 | a name is a constant iff an ADD_CONST was ever issued while it was registered |
| Registry.ConstObject | CallbackManager/src/CallbackManager.cpp:241-247 | a constant's object is the one its name stood for at the first effective ADD_CONST |
| Registry.ConstValue | CallbackManager/src/CallbackManager.cpp:235-240 | a constant's value is that of the last effective ADD_CONST, across unregistration and re-registration |
| Registry.ConstForever | CallbackManager/src/CallbackManager.cpp:227-249 | no later operations remove a constant or rebind it |
| Registry.RetiredForever | DefaultCallbacks/src/Callbacks.cpp:138-147 | an object that left named never returns, even when its name is registered again |
| Runs.RegistryIsLog | DefaultCallbacks/src/Callbacks.cpp:75-391 | after any sequence of requests, frames and outside changes the maps and the counter are the fold of the log of operations the run performed |
| Runs.StepKeeps | CallbackManager/src/CallbackManager.cpp:268-289 | every step performs just its operations, loses no object, leaves X-Plane objects alone, and keeps FlightFactor objects' identity and pending flag |
| Guarantees.ConstantsStay | CallbackManager/src/CallbackManager.cpp:227-249 | over whole runs a constant stays and stays bound to one object |
| Guarantees.PlainConstantOutlivesItsName | CallbackManager/src/CallbackManager.cpp:260-266 | in every later constant pass an X-Plane constant holds its value wherever no greater constant name writes, registered or not |
| Guarantees.FlightConstantDiesWithItsName | CallbackManager/src/CallbackManager.cpp:3-22 | once the object of a FlightFactor constant left named, in every later state a frame leaves the same memory and completes alike with the constant taken away, and every later run agrees on everything else whatever the object holds |
| Retirement.RetiredTargetIsNeverSeen | CallbackManager/src/CallbackManager.cpp:10-21 | two systems that differ only in a FlightFactor object outside named stay equal in maps, memory, table, readiness and all other objects over every run |
| Frames.RetiredConstantIsInert | CallbackManager/src/CallbackManager.cpp:3-22 | taking away a constant whose FlightFactor object is not registered changes neither the memory after a frame nor whether it completes |
| Guarantees.FlightConstantHolds | CallbackManager/src/CallbackManager.cpp:3-22 | in every reachable state, after a FlightFactor frame the cell equals the constant whatever was set between frames, unless a greater name shares the id |
| Guarantees.FlightTargetIsReapplied | CallbackManager/src/FFDataref.cpp:133-137 | a FlightFactor dataref that was ever set stays pending, and every later completed frame writes the target it has then, unless a greater name shares its id |
| Targets.PendingHistory | CallbackManager/src/FFDataref.cpp:133-137 | in every reachable state a FlightFactor object is pending iff some event of the run gave it a value: a SET_REG_DATA request whose name stood for it, or a frame that set a constant bound to it |
| Targets.TargetHistory | CallbackManager/src/FFDataref.cpp:133-137 | in every reachable state its target is the value it was given last |
| Targets.LastRequestIsWritten | CallbackManager/src/CallbackManager.cpp:3-22 | every frame that completes stores the value the dataref was given last, if it suits the type and no greater name shares the id; the frame itself gives the values of its constants |
| Targets.GivenOnce | CallbackManager/src/CallbackManager.cpp:260-266 | in a reachable state one event gives an object one value at most |
| Targets.LoadedForGood | DefaultCallbacks/src/Callbacks.cpp:363-377 | in every reachable state a FlightFactor object has the id and the type FlightFactor gives the link it holds; Origins.ObjectOrigin ties that link to the request |
| Origins.ObjectOrigin | DefaultCallbacks/src/Callbacks.cpp:90-116 | in every reachable state each object was made by a REG_DATA, a CSV row or a REG_FFDATA of the run, with the link, the type and the factor that one asks for, and differs from what was made at most in the target and the pending flag |
| Origins.MadeInLog | DefaultCallbacks/src/Callbacks.cpp:113-114 | the object a request or row makes is numbered by its registration in the operation log, under the name it asks for |
| Guarantees.SharedStays | CallbackManager/src/FFDataref.cpp:139-188 | a run writes no FlightFactor value but int, float and double ones, and those in FlightFactor frames only, whatever was requested |
| Frames.SetConstantsIsOnePatch | CallbackManager/src/CallbackManager.cpp:260-266 | setting constants one by one equals one patch of the old memory plus one round of notes, cut exactly at the first write that does not return |
| Frames.ConstantPassCompletes | CallbackManager/src/CallbackManager.cpp:260-266 | the pass completes iff every constant's value suits its dataref: a number where one is needed, in the range of its type |
| Frames.HugeConstantStopsPass | CallbackManager/src/Dataref.cpp:182-187 | a constant "1e999" on a writable Double dataref stops every constant pass |
| Frames.GreatestConstantWins | CallbackManager/src/CallbackManager.cpp:260-266 | after a completed pass, where several constants reach one location it holds the write of the lexicographically greatest name covering it |
| Frames.ConstantPassFrame | CallbackManager/src/CallbackManager.cpp:260-266 | locations no constant covers are unchanged |
| Frames.ConstantPassIdempotent | CallbackManager/src/CallbackManager.cpp:260-266 | running the pass twice equals running it once, for all types, float arrays included, also when it stops early |
| Frames.FlightFrameWritesTarget | CallbackManager/src/CallbackManager.cpp:3-22 | after a completed frame the value of a pending registered dataref is its target, constants first, unless a greater name shares the id |
| Frames.FlightFrameCompletes | CallbackManager/src/CallbackManager.cpp:3-22 | a frame completes iff every constant's value suits its dataref and every pending registered target, constants first, is in range |
| Frames.OnlyOutOfRangeStops | CallbackManager/src/FFDataref.cpp:139-188 | a target stops a frame iff it is a number out of the range of its type, int, float or double; text that is no number is passed over |
| Frames.HugeTargetStopsFrame | CallbackManager/src/FFDataref.cpp:156-170 | a pending double target "1e999" stops the frame |
| Numerals.HugeIsOutOfRange | CallbackManager/src/FFDataref.cpp:145-168 | stof and stod throw on "1e999" |
| Numerals.LargeIsNoFloat | CallbackManager/src/FFDataref.cpp:145-154 | stof throws on "1e39" where stod does not |
| Numerals.HexIsRead | CallbackManager/src/FFDataref.cpp:145-168 | hexadecimal text is read as C does: "0x10" is 16 |
| Frames.ConstantDecidesTarget | CallbackManager/src/CallbackManager.cpp:260-266 | a constant bound to the object replaces whatever target was set before the push |
| Frames.FlightFrameRepeats | CallbackManager/src/CallbackManager.cpp:3-22 | a second frame right after the first changes nothing |
| Frames.UnregisteredIsInert | CallbackManager/src/CallbackManager.cpp:10-21 | the memory after a frame does not depend on any FlightFactor object outside named |
| KeyOrder.SortedKeysUnique | CallbackManager/src/CallbackManager.cpp:10-21 | the order in which a map is visited is the only strictly increasing listing of its keys |
| KeyOrder.LessIs | CallbackManager/src/CallbackManager.cpp:10-21 | one key comes before another iff it is the beginning of the other or has the smaller character where they first differ |
| ArrayText.Unwrap | CallbackManager/src/Dataref.cpp:261-356 | one level of "Value" nesting: a bad own "Offset" fails, otherwise the inner value decides with the own offset, or the inherited one; for both kinds of arrays |
| ArrayText.InnermostOffsetDecides | CallbackManager/src/Dataref.cpp:344-356 | the last object in the chain that has an "Offset" decides; without one the inherited offset stands |
| Datarefs.Dataref.SetIntArrayFromJson | CallbackManager/src/Dataref.cpp:291-365 | the recursion through text terminates and does exactly one bulk write given by the flat request, or returns a code or throws with no write at all |
| ArrayWrites.ArrayIsWritten | CallbackManager/src/Dataref.cpp:302-363 | for any text whose chain of "Value" objects ends at an array of numerals, with o the "Offset" in force there: element i then holds numeral i - o as far as the array and the capacity reach from o on, and its old number elsewhere |
| ArrayWrites.IntegerFills | CallbackManager/src/Dataref.cpp:313-328 | a JSON integer at the end of the chain goes, wrapped to 32 bits, to every element from o on |
| ArrayWrites.NumeralFills | CallbackManager/src/Dataref.cpp:329-335 | so does the number of a JSON string |
| ArrayWrites.NothingForInts | CallbackManager/src/Dataref.cpp:297-361 | text that is no JSON, an object without "Value", and true, false, null or a number with a point write nothing; the codes are -1, -2 and 2 |
| ArrayWrites.BadNumeralThrows | CallbackManager/src/Dataref.cpp:307-335 | an array with an element that is no numeral, or such a string, throws before anything is written |
| ArrayWrites.StuckThrows | CallbackManager/src/Dataref.cpp:268-273 | an "Offset" anywhere in the chain that is no numeral, or cannot be divided by the factor, makes SetValue throw with nothing written; for both kinds of arrays |
| Datarefs.Dataref.SetFloatArrayFromJson | CallbackManager/src/Dataref.cpp:229-289 | the same for float arrays, with their own leaves rounded to float and an offset divided by the factor |
| ArrayWrites.RealArrayIsWritten | CallbackManager/src/Dataref.cpp:240-288 | the same for a float array and an array of decimals, each held as a float, with every "Offset" on the way divided by the factor |
| ArrayWrites.NumberFills | CallbackManager/src/Dataref.cpp:251-259 | a JSON number with a point goes, divided by the factor in float, to every element from o on |
| ArrayWrites.StringZeroes | CallbackManager/src/Dataref.cpp:251-287 | a JSON string there writes zeros, whatever it says, to every element from o on |
| ArrayWrites.NothingForReals | CallbackManager/src/Dataref.cpp:235-285 | text that is no JSON, an object without "Value", and true, false, null or an integer write nothing to a float array; the codes are -1, -2 and 2 |
| ArrayWrites.BadDecimalThrows | CallbackManager/src/Dataref.cpp:245-249 | an array with an element that is no decimal throws before anything is written |
| Datarefs.Dataref.SetText | CallbackManager/src/Dataref.cpp:198-218 | zeroing and then writing leaves the value, cut to the capacity, followed by zeros only |
| Datarefs.Dataref.SetValue | CallbackManager/src/Dataref.cpp:160-222 | the memory changes by the patch of the dataref's type, or not at all when the call throws |
| Datarefs.Dataref.GetValue | CallbackManager/src/Dataref.cpp:89-158 | the loops over buffers return the scaled text specified for the type |
| RoundTrips.IntSetAfterGet | CallbackManager/src/Dataref.cpp:101-175 | writing back the text just read restores the cell iff the factor is not zero and the scaled value fits an int |
| RoundTrips.OverflowLosesValue | CallbackManager/src/Dataref.cpp:101-175 | an Int dataref holding 2^30 with factor "4" reads as 0, and writing that back stores 0 |
| RoundTrips.HalfFactorStopsWrites | CallbackManager/src/Dataref.cpp:170-175 | at factor "0.5" an Int dataref reads "0" whatever it holds and no write returns |
| RoundTrips.IntGetAfterSet | CallbackManager/src/Dataref.cpp:170-175 | SET v then GET gives v less its truncated remainder by the factor, so an error below the factor and none iff it divides v; the write fails iff the factor is zero or the quotient is no int |
| RoundTrips.ExtractedInteger | DefaultCallbacks/src/Callbacks.cpp:3-43 | an integer value reaches stoi unchanged, as a JSON integer of either sign or as decimal text |
| RealTrips.RealSetAfterGet | CallbackManager/src/Dataref.cpp:103-109 | for float and double datarefs, while the scaled value and the quotient are in range, writing back the text just read keeps the sign and moves the scaled value by at most half a millionth and four parts in 2^24 or 2^53 of it, or a whole millionth when the quotient is subnormal; a reply below 4 or 2^31, or from 16 or 2^33 on and no power of two, is replied again |
| RealTrips.ExactReplyReturns | CallbackManager/src/Dataref.cpp:103-109 | so is, whatever its size, a reply that reads as the very product it shows, if that is no power of two |
| RealTrips.ReplyMoves | CallbackManager/src/Dataref.cpp:103-109 | a double replied as 4125556391.650093 at factor "7" is replied as 4125556391.650094 after that was written back |
| RealTrips.PowerOfTwoMoves | CallbackManager/src/Dataref.cpp:103-109 | a float replied as 32.000000 at factor "41" is replied as 31.999998 after that was written back |
| Accuracy.ProductReturns | CallbackManager/src/Dataref.cpp:103-187 | multiplying a value by a factor, dividing and multiplying again, rounding each time, gives the same product, unless that is a power of two |
| Rounding.NearestIsNearest | CallbackManager/src/Dataref.cpp:103-187 | no value of the format is nearer to a number than the one it rounds to |
| RealTrips.RealStableAtFactorOne | CallbackManager/src/Dataref.cpp:103-109 | at factor one GET, SET and GET reply the same text, whatever value in range the dataref holds |
| RealTrips.RealGetAfterSet | CallbackManager/src/Dataref.cpp:174-187 | SET any number of six decimals below 4 (float) or 2^31 (double), then GET: the reply is that text iff the factor is not zero and the quotient does not overflow |
| RealTrips.RealAtFactorOne | CallbackManager/src/Dataref.cpp:174-187 | at factor one any number of six decimals reads back as set iff it survives the type |
| RealTrips.SevenMovesTheSixthDecimal | CallbackManager/src/Dataref.cpp:174-187 | at factor "7" a Double dataref set to 4125556391.650093 reads 4125556391.650094 |
| RealTrips.SevenMovesAFloat | CallbackManager/src/Dataref.cpp:174-181 | at factor "7" a Float dataref set to 7.000003 reads 7.000002 |
| Accuracy.SixteenAndABit | CallbackManager/src/Dataref.cpp:176-178 | a float keeps every six decimals up to 16; "16.000001" prints as "16.000002" |
| RoundTrips.ArrayGetAfterSet | CallbackManager/src/Dataref.cpp:126-141 | after writing an array, reading gives factor times the written values in the first min(len, capacity) elements and factor times the old ones elsewhere |
| RoundTrips.ArrayIsLosslessIffFactorOne | CallbackManager/src/Dataref.cpp:126-365 | every full array written reads back as written iff the factor is one |
| RoundTrips.OneReadsTwo | CallbackManager/src/Dataref.cpp:126-141 | at factor "2" a one-element array set to 1 reads 2 |
| RealTrips.RealArrayGetAfterSet | CallbackManager/src/Dataref.cpp:110-125 | after writing a float array, reading gives factor times the written values in the first min(len, capacity) elements and factor times the old ones elsewhere |
| RealTrips.RealArrayIsLosslessIffFactorOne | CallbackManager/src/Dataref.cpp:110-125 | every full float array written reads back as the floats written iff the factor, as a float, is one |
| RealTrips.StringZeroesRealArray | CallbackManager/src/Dataref.cpp:251-260 | setting a float array to a JSON string makes every element zero |
| RealTrips.IntegerIsNoReal | CallbackManager/src/Dataref.cpp:282-285 | setting a float array to a JSON integer writes nothing |
| RealTrips.OffsetIsDivided | CallbackManager/src/Dataref.cpp:268-273 | at factor "2" an Offset of "2" writes element 1 of a float array |
| RoundTrips.TextGetAfterSet | CallbackManager/src/Dataref.cpp:142-153 | after any previous contents, reading gives the value up to its first NUL iff that is shorter than the capacity |
| RoundTrips.DefaultFactorIsOne | DefaultCallbacks/src/Callbacks.cpp:108-112 | the factor "1.0f" assumed for a request without one is read as 1, by stod and as an int |
| Numerals.StoiPrintInt | CallbackManager/src/Dataref.cpp:102-172 | stoi undoes to_string on every int, and throws out_of_range beyond |
| Texts.StoiReads | CallbackManager/src/Dataref.cpp:172 | stoi reads blanks, an optional sign and digits, whatever follows, and throws out_of_range beyond 32 bits |
| Texts.StoiRejects | CallbackManager/src/Dataref.cpp:172 | it throws invalid_argument when no digit is there |
| Texts.DecimalReads | CallbackManager/src/Dataref.cpp:174-187 | stof and stod read blanks, a sign, digits with at most one point and an exponent of either sign as that exact number, which is then rounded, whatever follows |
| Texts.WordsRead | CallbackManager/src/Dataref.cpp:174-187 | they read "inf" and "nan" in any case of letters |
| Texts.NothingReads | CallbackManager/src/Dataref.cpp:174-187 | text that starts neither as a number nor as one of these throws invalid_argument |
| Texts.HexReads | CallbackManager/src/Dataref.cpp:174-187 | after "0x" they read hexadecimal digits around a point, four bits each, and a power of two after "p" |
| Texts.HexDigitsAre | CallbackManager/src/Dataref.cpp:174-187 | the sixteen digits are worth 0 to 15, small or capital |
| Texts.SpecialsReturn | CallbackManager/src/Dataref.cpp:103-187 | infinities and NaN print as "inf", "-inf" and "nan" and are read back from there |
| Texts.SpecialResults | CallbackManager/src/Dataref.cpp:103-187 | when a product or a quotient is infinite, zero or no number: a factor of zero makes a quotient infinite, or NaN for zero |
| Texts.TinyIsOutOfRange | CallbackManager/src/FFDataref.cpp:145-168 | "1e-999" is lost to zero, and stof and stod throw on it |
| Texts.TiesToEven | CallbackManager/src/Dataref.cpp:104-181 | a number half way between two values rounds to an even multiple of their distance |
| RealTrips.StoPrintDouble | CallbackManager/src/Dataref.cpp:103-187 | stof and stod read any printed value of their type in range, with its sign, and what they read prints as the same text |
| Numerals.SurvivesBelow | CallbackManager/src/Dataref.cpp:103-187 | six decimals below 16 survive a float and below 2^33 a double |
| Rounding.NearestTwice | CallbackManager/src/Dataref.cpp:104-181 | rounding to float or double is idempotent |
| Rounding.Stays | CallbackManager/src/Dataref.cpp:104-181 | a value of the format rounds to itself and is below the limit from which numbers overflow |
| Rounding.NearestHas | CallbackManager/src/Dataref.cpp:104-181 | rounding gives a value of the format |
| Numerals.TruncDivUnique | CallbackManager/src/Dataref.cpp:172 | the C++ quotient is the only one whose remainder is smaller than the divisor and has the dividend's sign |
| FlightFactor.FFDataref.DoSetValue | CallbackManager/src/FFDataref.cpp:139-188 | stores the parsed value for the three numeric types, float and double rounded to theirs, nothing for unparseable text or other types, and fails only when out of range |
| FlightFactor.FFDataref.SetValue | CallbackManager/src/FFDataref.cpp:133-137 | only notes the target and the pending flag |
| FlightFactor.FFDataref.GetValue | CallbackManager/src/FFDataref.cpp:54-131 | the branches of the method return the text specified for each type; what that text is worth is stated by the next rows |
| FlightRoundTrips.ReadIsProductIff | CallbackManager/src/FFDataref.cpp:69-105 | for the six integer types the text is that of value times factor iff the product fits unsigned for uInt, int for the others |
| FlightRoundTrips.SetFrameGetInteger | CallbackManager/src/FFDataref.cpp:94-99 | SET_REG_DATA of an int v, a frame, GET_REG_DATA: the reply is v times the factor, wrapped to 32 bits, when no constant holds the object, no greater name has its id and nothing else stops the frame |
| FlightRoundTrips.IntegersReadBackIffFactorOne | CallbackManager/src/FFDataref.cpp:94-99 | every int set on an int FlightFactor dataref reads back as set after the next frame iff the factor is one |
| FlightRoundTrips.SetFrameGetReal | CallbackManager/src/FFDataref.cpp:106-117 | the same for float and double: the reply is the number as the type holds it times the factor as the type holds it, rounded to the type, with six decimals |
| FlightRoundTrips.AtFactorOne | CallbackManager/src/FFDataref.cpp:106-117 | at factor one a number of six decimals reads back as set iff it survives the type |
| FlightRoundTrips.OutOfRangeStopsFrame | CallbackManager/src/FFDataref.cpp:145-168 | setting a float or double dataref out of its range succeeds, and the next frame does not complete |
| FlightRoundTrips.RealsReadBackIffFactorOne | CallbackManager/src/FFDataref.cpp:106-117 | all numbers of six decimals that survive the type read back as set iff the factor, as the type holds it, is one |
| FlightRoundTrips.FloatShortens | CallbackManager/src/FFDataref.cpp:106-111 | a float dataref at factor one set to 1234.567891 reads 1234.567871 |
| FlightRoundTrips.ThreeReadsSix | CallbackManager/src/FFDataref.cpp:94-99 | at factor "2" an int FlightFactor dataref set to 3 reads 6 after the next frame |
| Csv.Tokenise | DefaultCallbacks/src/Callbacks.cpp:319-326 | the loop terminates and yields the fields and the leftover of the line |
| Csv.TokensRebuildLine | DefaultCallbacks/src/Callbacks.cpp:319-326 | each token followed by a semicolon, then the leftover, is the line |
| Csv.OneTokenPerSemicolon | DefaultCallbacks/src/Callbacks.cpp:319-326 | there are as many tokens as semicolons |
| Csv.FieldsOfJoin | DefaultCallbacks/src/Callbacks.cpp:319-326 | tokenising separator-free fields joined with semicolons gives them back |
| Requests.RowEqualsRequests | DefaultCallbacks/src/Callbacks.cpp:327-333 | a CSV row equals its REG_DATA and SUB_DATA iff its name is taken, or its type is not "UNKNWON", or the SDK's type is unknown |
| Requests.UnknownTypeTellsApart | DefaultCallbacks/src/Callbacks.cpp:90-102 | a row with type "UNKNWON" on an Int dataref ends in another state than its requests |
| Guarantees.BulkLoadIsRequests | DefaultCallbacks/src/Callbacks.cpp:301-336 | loading a file of complete rows ends in the very state of sending the requests of each row in order iff every data row, going down, has a name taken by then or a type both read alike; comment lines have no requests |
| Guarantees.LoadRequestIsRequests | DefaultCallbacks/src/Callbacks.cpp:301-336 | with the default operations bound, one LOAD_REG_DATA request leads to the same state as the requests for its rows, under the same iff |
| Replies.SetThenGetInteger | DefaultCallbacks/src/Callbacks.cpp:172-223 | SET_REG_DATA then GET_REG_DATA of an Int dataref replies the text of v less its truncated remainder by the factor |
| Replies.SetThenGetReal | DefaultCallbacks/src/Callbacks.cpp:172-223 | the same two requests on a float or double dataref reply the very text set, below 4 or 2^31, iff the factor is not zero and the quotient does not overflow |
| Replies.GetSetGetReal | DefaultCallbacks/src/Callbacks.cpp:172-223 | GET, SET with the reply, GET on a float or double dataref reply the same text twice, for the replies RealSetAfterGet names |
| Replies.SetThenGetArray | DefaultCallbacks/src/Callbacks.cpp:172-223 | on an Int array dataref set to a JSON array they reply the factor times the values written, and times the old contents beyond them |
| Replies.SetThenGetRealArray | DefaultCallbacks/src/Callbacks.cpp:172-223 | the same on a float array dataref |
| Replies.SetThenGetText | DefaultCallbacks/src/Callbacks.cpp:172-223 | on a Data dataref they reply the text up to its first NUL iff that is shorter than the capacity; otherwise GET does not return |
| Replies.JsonNumberKept | DefaultCallbacks/src/Callbacks.cpp:12-15 | a JSON number of six decimals below 16 reaches the dataref as that text |
| Replies.JsonNumberShortened | DefaultCallbacks/src/Callbacks.cpp:12-15 | the JSON number 1234.567891 reaches it as "1234.567871" |
| Conversations.TextOfValue | DefaultCallbacks/src/Callbacks.cpp:3-43 | the text of a "Value": itself for a string, the decimal number for an integer, the JSON text for an object or an array, and empty for null, true and false |
| Conversations.RegistrationIs | DefaultCallbacks/src/Callbacks.cpp:75-116 | REG_DATA, or LOAD_REG_DATA of a file with one row after comments, puts under a new name a dataref with the link asked for, the type that "INT", "FLOAT", "DOUBLE", "INT_ARRAY", "FLOAT_ARRAY" or "DATA" names, or the simulator's bits mean when none is named, and the factor, "1.0f" when none is given; a row subscribes it too |
| Conversations.FileRegisters | DefaultCallbacks/src/Callbacks.cpp:301-336 | the file's side of it: the four fields of the row are name, link, type and factor, and lines that start with '#' are skipped |
| Conversations.IntTalk | DefaultCallbacks/src/Callbacks.cpp:75-223 | such a registration as "INT", SET_REG_DATA v and GET_REG_DATA: v divided by the factor is in the cell of the link, and the reply is v less the remainder, so v at factor one |
| Conversations.IntExample | DefaultCallbacks/src/Callbacks.cpp:75-223 | the same in literal documents without a factor: the last reply is the request with "Value" v |
| Conversations.RealTalk | DefaultCallbacks/src/Callbacks.cpp:75-223 | the same as "FLOAT" or "DOUBLE" with a number of six decimals: the rounded quotient is in the cell, and the reply is the text set when RealGetAfterSet's condition holds |
| Conversations.RealTalkAtOne | DefaultCallbacks/src/Callbacks.cpp:75-223 | at factor one the reply is the text set iff the number survives the type |
| Conversations.NoFactorIsOne | DefaultCallbacks/src/Callbacks.cpp:103-112 | which is the case of a request without a factor |
| Conversations.IntArrayTalk | DefaultCallbacks/src/Callbacks.cpp:75-223 | as "INT_ARRAY", set to an array of numerals inside any chain of "Value" and "Offset": the elements in memory and the reply, all of them times the factor |
| Conversations.IntFillTalk | DefaultCallbacks/src/Callbacks.cpp:75-223 | the same set to an integer or a numeral, which goes to every element from the offset on |
| Conversations.OffsetExample | CallbackManager/src/Dataref.cpp:344-363 | [10, 11, 12, 13] set to {"Offset": "2", "Value": ["7"]} replies [10, 11, 7, 13] |
| Conversations.RealArrayTalk | DefaultCallbacks/src/Callbacks.cpp:75-223 | as "FLOAT_ARRAY", set to an array of decimals inside such a chain |
| Conversations.TextTalk | DefaultCallbacks/src/Callbacks.cpp:75-223 | as "DATA", set to a text without NUL that fits: the text and then zeros are in memory, and the reply is the text |
| Conversations.LostLinkIsEmpty | CallbackManager/src/Dataref.cpp:89-222 | a name for a link the simulator does not know is set without effect and reads as the empty text |
| Conversations.ReadOnlyStays | CallbackManager/src/Dataref.cpp:89-222 | so is one that cannot be written, or that has no type |
| Conversations.WrongTypeStays | CallbackManager/src/Dataref.cpp:89-187 | so is one the simulator stores in another way than its type, and an Int one reads 0 |
| Conversations.WrongTypeReads | CallbackManager/src/Dataref.cpp:103-109 | a float or double one reads 0.000000, at a factor neither negative nor infinite |
| Conversations.BadFactorArrays | CallbackManager/src/Dataref.cpp:110-141 | a factor that is no number makes GET throw, unless the array has no elements |
| Conversations.NoNumberThrows | CallbackManager/src/Dataref.cpp:97-187 | text that is no number of the type, or a factor that is none, throws on SET and a bad factor on GET, and nothing changes |
| DirectAccess.GetDataIsGetRegData | DefaultCallbacks/src/Callbacks.cpp:225-249 | GET_DATA with a link, and a type named or the simulator's, replies the text that GET_REG_DATA replies for a name with that link and type and factor "1.0" |
| DirectAccess.SetDataIsSetRegData | DefaultCallbacks/src/Callbacks.cpp:251-281 | SET_DATA ends in the state and with the code of SET_REG_DATA for such a name |
| DirectAccess.IntByLink | DefaultCallbacks/src/Callbacks.cpp:225-281 | an int set by SET_DATA is in the cell behind the link, nothing else changes, and GET_DATA replies it |
| DirectAccess.LinkExample | DefaultCallbacks/src/Callbacks.cpp:225-281 | the same in literal documents |
| DirectAccess.NothingByLink | DefaultCallbacks/src/Callbacks.cpp:258-263 | SET_DATA to null, true, false or the empty text is refused with 3 |
| FlightTalks.FlightIntTalk | DefaultCallbacks/src/Callbacks.cpp:343-391 | REG_FFDATA of an int (type 6), SET_REG_DATA v, a frame and GET_REG_DATA: the frame leaves v in FlightFactor's value and the reply is v times the factor, wrapped to 32 bits |
| FlightTalks.FlightRealTalk | DefaultCallbacks/src/Callbacks.cpp:343-391 | the same for a float or a double (types 8 and 9): the number as the type holds it, and its product with the factor in that type |
| FlightTalks.FlightNotices | CallbackManager/src/FFDataref.cpp:54-131 | what GET_REG_DATA replies for values that are no numbers: "ID OR TYPE INVALID", "N/A", or undefined for a string |
| FlightTalks.NoNumberIsNotPushed | CallbackManager/src/FFDataref.cpp:139-188 | a target that is no number of its type, or is for a value that is neither int, float nor double, writes nothing |
| CallbackTable.FirstOfferWins | CallbackManager/src/CallbackManager.cpp:73-81 | after loading, old bindings stand and a new operation has the first non-null function offered |
| CallbackTable.LoadedConcat | CallbackManager/src/CallbackManager.cpp:150-180 | loading one list after another is loading their concatenation |
| CallbackTable.ReloadChangesNothing | CallbackManager/src/CallbackManager.cpp:150-180 | loading a list again at any later time changes nothing |
| CallbackTable.Load | CallbackManager/src/CallbackManager.cpp:150-180 | the loop, skipping null functions and names in use, computes the table specified |
| Requests.DefaultsStay | DefaultCallbacks/src/Callbacks.cpp:45-67 | the fourteen default operations are bound to their callbacks, whatever is loaded later |
| Protocol.EnabledServes | DefaultCallbacks/src/Callbacks.cpp:45-67 | the plugin enabled with the default library binds the fourteen operations, written out by name, to their callbacks |
| Protocol.ServesForever | CallbackManager/src/CallbackManager.cpp:73-81 | and does so after any run |
| Guarantees.BindingsStay | CallbackManager/src/CallbackManager.cpp:73-81 | over any run a binding neither changes nor vanishes |
| CallbackManager.CallbackManager.AddSubscribedDataref | CallbackManager/src/CallbackManager.cpp:196-207 | updates the map of references and the counter as the step machine does |
| CallbackManager.CallbackManager.RemoveSubscribedDataref | CallbackManager/src/CallbackManager.cpp:209-220 | updates the map of references and the counter as the step machine does |
| CallbackManager.CallbackManager.AddConstantDataref | CallbackManager/src/CallbackManager.cpp:227-249 | updates the value of an existing constant, or binds a new one to the reference registered now |
| CallbackManager.CallbackManager.RemoveConstantDataref | CallbackManager/src/CallbackManager.cpp:251-258 | removes one constant and nothing else |
| CallbackManager.CallbackManager.ExecuteConstantDataref | CallbackManager/src/CallbackManager.cpp:260-266 | the loop of virtual calls over references equals the constant pass on values |
| CallbackManager.CallbackManager.FF320Callback | CallbackManager/src/CallbackManager.cpp:3-22 | the two loops over references equal the FlightFactor frame on values |
| Callbacks.RegisterDataref | DefaultCallbacks/src/Callbacks.cpp:75-116 | the new object, its type and factor, the code and the state, error cases included |
| Callbacks.UnregisterDataref | DefaultCallbacks/src/Callbacks.cpp:118-148 | clears the subscription and the name, or returns its code |
| Callbacks.GetRegisterDatarefValue | DefaultCallbacks/src/Callbacks.cpp:172-192 | the reply carries the value read through the registered reference |
| Callbacks.SetRegisterDatarefValue | DefaultCallbacks/src/Callbacks.cpp:194-223 | sets the registered object, or returns one of its three codes |
| Callbacks.LoadRegisterDataref | DefaultCallbacks/src/Callbacks.cpp:301-336 | the loop over the lines equals the bulk load on values |
| Callbacks.RegisterFFDataref | DefaultCallbacks/src/Callbacks.cpp:343-391 | readies the interface on the first call, otherwise registers a loaded FlightFactor object and replies what is known of its value; a null name or description is undefined |
| Requests.DescribedKeepsRequest | DefaultCallbacks/src/Callbacks.cpp:379-384 | the reply keeps every field of the request and adds at most ID, Type, Flag, Unit, Name and Description |
| Protocol.FlightIsDescribed | DefaultCallbacks/src/Callbacks.cpp:379-384 | "ID" is the id FlightFactor gives the link, "Type" and "Flag" its type, "Unit" its unit, "Description" its text, each unless the request has that key itself; the request's own fields stay |
| Protocol.FlightIsRegistered | DefaultCallbacks/src/Callbacks.cpp:359-390 | the new name stands for a new object with that id and type, the factor asked for or "1.0f", and no target; everything else stays |
| Protocol.FirstFlightRequest | DefaultCallbacks/src/Callbacks.cpp:345-349 | before the interface is ready REG_FFDATA only makes it ready and returns 0x10 |
| Protocol.InitReadies | DefaultCallbacks/src/Callbacks.cpp:337-341 | FFDATA_INIT makes it ready iff FlightFactor's plugin is there, with code 0 or 1 |
| Protocol.UnknownFlightThrows | DefaultCallbacks/src/Callbacks.cpp:379-384 | a link FlightFactor does not know has no name to reply, which is undefined |
| Protocol.IncompleteFlight | DefaultCallbacks/src/Callbacks.cpp:352-358 | without name or link it is refused with 1 |
| Callbacks.ExecuteCallback | CallbackManager/src/CallbackManager.cpp:268-289 | dispatch through the table on references equals dispatch on values, for every callback and outcome |
| Protocol.Dispatch | CallbackManager/src/CallbackManager.cpp:276-288 | each of the fourteen names runs its own callback |
| Protocol.UnknownIsRefused | CallbackManager/src/CallbackManager.cpp:270-280 | no "Operation" is refused with 1, an unbound one with 2, and one that is no string throws |
| Protocol.IncompleteIsRefused | DefaultCallbacks/src/Callbacks.cpp:75-299 | a request that lacks a field its operation needs is refused with 1 and changes nothing |
| Protocol.MalformedThrows | DefaultCallbacks/src/Callbacks.cpp:69-304 | one with a field of the wrong type throws and changes nothing |
| Protocol.StrangersAreRefused | DefaultCallbacks/src/Callbacks.cpp:133-220 | reading, setting or unregistering an unknown name is refused with 2, setting to null, true, false or the empty text with 3 |
| Protocol.TakenNameStays | DefaultCallbacks/src/Callbacks.cpp:113-115 | REG_DATA of a taken name returns 0 and changes no name, no object and no memory |
| Protocol.BadFiles | DefaultCallbacks/src/Callbacks.cpp:303-333 | a file that cannot be read is refused with 1, an empty one loads nothing, a row without a semicolon is undefined |
| Protocol.Subscribing | DefaultCallbacks/src/Callbacks.cpp:150-159 | SUB_DATA adds a registered name with its object unless it is there, and changes nothing else a client sees |
| Protocol.Unsubscribing | DefaultCallbacks/src/Callbacks.cpp:161-170 | UNSUB_DATA takes the name out of the subscriptions only |
| Protocol.Unregistering | DefaultCallbacks/src/Callbacks.cpp:118-148 | UNREG_DATA takes a name out of the names and the subscriptions; constants stay |
| Protocol.AddingConstant | DefaultCallbacks/src/Callbacks.cpp:291-299 | ADD_CONST gives a registered name the value, on the object of an existing constant or the one the name stands for now |
| Protocol.SpeakingAndLoading | DefaultCallbacks/src/Callbacks.cpp:69-73 | SPEAK changes nothing the model keeps; LOAD_DLL offers the operations of a library and nothing else |
| Server.HostRunIsSystemRun | XPLMServer/src/main.cpp:211-260 | a run of the flight-loop callbacks is a run of the system, so the guarantees over runs hold for it |
| Server.ClientsAreSenders | XPLMServer/src/main.cpp:225-238 | the client list has no duplicates and holds exactly the senders of non-empty requests, all at the outbound port |
| Server.ClientsGrow | XPLMServer/src/main.cpp:235-238 | the client list only grows at its end |
| Server.RepliesGoToEarlierSenders | XPLMServer/src/main.cpp:211-240 | a reply is sent exactly once to each sender of an earlier request and to no one else |
| Broadcasts.ClientHears | XPLMServer/src/main.cpp:211-279 | over a whole run the packets to a client are, in order and once each, the replies, exports and announcements of the inputs after its first non-empty request, and none before |
| Server.ExportAgreesWithGet | XPLMServer/src/main.cpp:242-260 | in every reachable state an export lists the subscribed names in increasing order, each entry being what GET_REG_DATA replies then, and fails iff one of those requests would |
| Packets.ExportPackets | XPLMServer/src/main.cpp:242-260 | over any run of the enabled plugin an export sends each client in turn one packet; its text parses to an object with "Operation" "ExportDataref" and "Datarefs" an array with one entry for each subscribed name in increasing order, holding the name and the text GET_REG_DATA replies for it then; it throws iff one of those requests would |
| Packets.RequestPackets | XPLMServer/src/main.cpp:211-240 | a request: the constants first, unless FlightFactor's frames set them, then what it asks for; each client known before is sent the resulting document, and the sender is a client from then on |
| Packets.SilentSteps | XPLMServer/src/main.cpp:218-221 | without a request only the constants are set; text that is no JSON throws |
| Packets.OtherSteps | XPLMServer/src/main.cpp:262-279 | an announcement is sent to each client as it is; frames and changes from outside send nothing |
| Packets.NewHost | XPLMServer/src/main.cpp:99-209 | a plugin just enabled has no names, subscriptions, constants and clients, has sent nothing, and FlightFactor's interface is not ready |
| Packets.WireExample | XPLMServer/src/main.cpp:211-240 | a client sends REG_DATA, SET_REG_DATA v and GET_REG_DATA to the enabled plugin: it is sent the second document back and then the third with "Value" v, and v is in the cell behind the link |
| Server.Plugin.NetworkCallback | XPLMServer/src/main.cpp:211-240 | constants, request, broadcast and client list in this order equal the step on values, and the objects stay fit for the next call |
| Server.Plugin.ExportSubscribedDataref | XPLMServer/src/main.cpp:242-260 | the loop over subscribed references broadcasts the export on values |
| Server.Live | XPLMServer/src/main.cpp:90-260 | the plugin from the moment it is enabled: for any library and any sequence of network, export, FlightFactor and other calls, the clients, the packets sent, the memory and whether it still runs are those of the run on values |

## Left out

- The text of a dumped float array is not modelled further than as a function of its elements.
- A NaN is printed as "nan", whatever its sign.
- FlightFactor.FFDataref.GetValue: the String branch is taken as undefined, because it passes the address of its buffer pointer.
- Sockets, select, the beacon's socket and TCPServer; only the sender's address and the packets sent are kept. Event and beacon broadcasts appear as text given from outside.
- DLL loading and symbol lookup; a library is the list of its operations and functions.
- Logging, Speak's effect, configuration reading, and the file system behind LOAD_REG_DATA, whose files are given as lines.
- Destructors and copy constructors: object lifetime only.
