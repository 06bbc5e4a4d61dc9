# A verified model of the TCP proxy and of its AMQP client headers

The repository is a TCP proxy that connects each client to a server chosen by the id in
the client's first message, and that is controlled over RabbitMQ through the AMQP-CPP
headers it builds against. This project models the stateful cores of both and proves what
they keep, over all inputs and all runs.

| file | what it holds |
|---|---|
| `Basics.dfy`, `Text.dfy`, `Wire.dfy` | options, C text primitives, integers in network byte order |
| `BooleanSet.dfy`, `Buffers.dfy` | flag octets, the copied output buffer, the cursor over a received frame |
| `SlotFormat.dfy`, `ContentHeader.dfy`, `MetaData.dfy` | the content-header codec: a slot-by-slot format, the property list, the object with its setters, reader, `fill` and `size` |
| `Address.dfy`, `AddressText.dfy`, `AddressOrder.dfy` | the address parser and its two printers, what their texts consist of, the comparison operators |
| `Channel.dfy` | the chain of pending operations of a channel, with re-entrant pushes |
| `RelaySpec.dfy`, `Relay.dfy` | one proxied connection: state machine over its events, and the objects |
| `RegistrySpec.dfy`, `Registry.dfy` | the live set and the id index over whole histories, and the two managers |
| `Monitor.dfy`, `Message.dfy`, `Heartbeat.dfy` | two-way monitor links, body reassembly, the heartbeat timer |

Every class follows the source's object: the same fields, updated in place, one method per
member function. A method's contract equates the object's abstract value with a step of a
pure specification, and the lemmas are about that specification, over every value and every
run. For the property list, the channel, the proxy, the registry, the monitors, the message and
the heartbeat a method then ties the objects to a whole run: from construction through any
sequence of calls or events, the abstract value is that of the run. `dafny verify dfyconfig.toml` checks the whole project.

## Where the code differs from what its comments promise

Each of these is stated as an exact condition.

- `Address::operator std::string` tests the port against 5672, not against the scheme's default:
  an amqps address on port 5672 is the one accepted address it does not print faithfully
  (`Addresses.StringFormRoundTrip`). The stream operator prints that one faithfully, and instead
  loses exactly the wholly empty login (`Addresses.StreamFormRoundTrip`).
- `ShortString` truncates only its length octet: a property list is read back exactly when its
  written strings have at most 255 bytes (`ContentHeader.RoundTripIff`), while `size` stays right
  (`MetaDataObject.MetaData.Size`).
- `Message::append` promises to return whether the message is complete; on the zero-copy path it
  returns false for every non-empty body, and counts from zero again if more chunks follow
  (`Messages.ClaimIsRightIff`, for any sequence of chunks).
- `ProxyManager::dropConnection` erases the whole id key, so closing one client hides the others
  with its id from `dropById` (`RegistrySpec.SurvivorsAreOrphans`, `RegistrySpec.DropByIdCanMiss`),
  and skips negative ids, so only keys of at least 0 never refer to a dead client
  (`RegistrySpec.EntriesAreLiveIff`).
- `Proxy::onConnected(false)` only logs: the client stays connected and its bytes stay buffered
  (`RelaySpec.FailedConnectHoldsTheClient`).

## Model

| member | source | states |
|---|---|---|
| Wire.ConvertedMemoryIsNetworkOrder | include/amqpcpp/outbuffer.h:84-166 | appending the memory of an integer after htobe writes its most significant octet first on little-endian and big-endian hosts alike |
| Wire.DecodeInvertsEncodeInt | include/amqpcpp/numericfield.h:63-87 | every value of the eight integer fields, negative ones included, is what reading back its octets gives |
| Wire.EncodeInvertsDecodeInt | include/amqpcpp/numericfield.h:166-174 | every octet string of a field's width is the encoding of exactly the in-range integer it is read as |
| Wire.TwosComplement | include/amqpcpp/numericfield.h:199-207 | the signed and unsigned reading of the same octets determine each other |
| Wire.IntegersOnTheWire | include/amqpcpp/receivedframe.h:190-244 | for each of the four widths, signed and unsigned, the weight of every octet of an integer on the wire, the first one the heaviest |
| BooleanSets.BitOfWithBit | include/amqpcpp/booleanset.h:119-149 | setting one boolean changes that boolean and no other; indices above 7 read false and write nothing |
| BooleanSets.OctetOfFlags | include/amqpcpp/booleanset.h:119-126 | boolean i is the bit of weight 2^i of the octet on the wire |
| BooleanSets.OctetByWeight | include/amqpcpp/booleanset.h:155-167 | an octet is the sum of the weights 128 down to 1 of its booleans that are set |
| BooleanSets.OfOctet | include/amqpcpp/booleanset.h:70-73 | the booleans of a received octet are its binary digits |
| BooleanSets.OctetRoundTrips | include/amqpcpp/booleanset.h:70-73 | octets and octuples of booleans correspond one to one |
| BooleanSets.BooleanSet.Set | include/amqpcpp/booleanset.h:133-149 | the eight booleans after set, all the others as before |
| BooleanSets.BooleanSet.Value | include/amqpcpp/booleanset.h:155-167 | the octet written is the one whose digits are the eight booleans |
| BooleanSets.BooleanSet.Load | include/amqpcpp/booleanset.h:70-73 | reading an octet sets exactly its booleans |
| Buffers.CopiedBuffer.Append | include/amqpcpp/copiedbuffer.h:59-66 | within the capacity, the contents are extended by the data and otherwise unchanged |
| Buffers.CopiedBuffer.AddInt | include/amqpcpp/outbuffer.h:74-166 | whatever the host's byte order, the contents are extended by the network-order form of the value |
| Buffers.ReceivedFrame.NextInt | include/amqpcpp/receivedframe.h:190-244 | the cursor delivers the big-endian integer at its head and moves past it, or fails at the end of the frame without moving |
| Buffers.ReceivedFrame.NextData | include/amqpcpp/receivedframe.h:260-265 | the cursor delivers the next octets and moves past them, or fails without moving |
| SlotFormat.ReadInvertsWrite | include/amqpcpp/metadata.h:142-161 | a list of slots is read back whatever follows, if each slot is |
| SlotFormat.WriteInvertsRead | include/amqpcpp/metadata.h:328-349 | a list of slots that was read is written back octet for octet, if each slot is |
| SlotFormat.ReadImage | include/amqpcpp/metadata.h:142-161 | what holds of every value a slot can deliver holds of every value of a list that was read |
| ContentHeader.DecodeValueInvertsEncodeValue | include/amqpcpp/stringfield.h:62-69 | every field value whose string fits its length octet is read back from its encoding, whatever follows |
| ContentHeader.EncodeValueInvertsDecodeValue | include/amqpcpp/stringfield.h:160-170 | a field that was read is typed, has a string of at most 255 bytes, and is written back as the octets it was read from |
| ContentHeader.ReadBackWhatWasWritten | include/amqpcpp/metadata.h:142-161 | the constructor on what fill wrote gives the identical object and consumes exactly those octets, whatever follows |
| ContentHeader.DecodeImage | include/amqpcpp/metadata.h:142-161 | everything the constructor can read has defaults in its absent fields and short strings of at most 255 bytes |
| ContentHeader.WriteBackWhatWasRead | include/amqpcpp/metadata.h:328-349 | any property list read without a headers table, under any of the sixteen flags, is written back as exactly the octets consumed |
| ContentHeader.RoundTripIff | include/amqpcpp/metadata.h:328-349 | over all typed property lists, reading back succeeds if and only if absent fields hold defaults and written strings fit 255 bytes |
| ContentHeader.EncodedLength | include/amqpcpp/metadata.h:300-322 | the written length is two flag octets plus the field sizes, over-long strings included |
| ContentHeader.Layout | include/amqpcpp/metadata.h:328-349 | two flag octets, then the fourteen fields one behind the other, each present exactly if its flag is set, strings behind their length modulo 256 |
| ContentHeader.Defaults | include/amqpcpp/metadata.h:34-125 | the default object announces nothing, its strings are empty and its numbers 0 |
| ContentHeader.SettersRecordTheLastCall | include/amqpcpp/metadata.h:216-229 | after any sequence of setter calls each flag and value is that of the last call affecting the property, its default if there is none or it was removed |
| ContentHeader.ReachableRoundTrip | include/amqpcpp/metadata.h:281-294 | any sequence of setters, setPersistent(false) included, leaves absent fields at their defaults, and the result is read back identically if and only if its written strings fit |
| MetaDataObject.FillText | include/amqpcpp/stringfield.h:160-170 | a short string is written as its length modulo 256 followed by all of its bytes |
| MetaDataObject.ReadText | include/amqpcpp/stringfield.h:62-69 | the bytes the length octet announces, or failure where the frame ends first |
| MetaDataObject.MetaData.constructor | include/amqpcpp/metadata.h:134 | the default object: no flag set, every field at its default |
| MetaDataObject.MetaData.SetExpiration | include/amqpcpp/metadata.h:216 | expiration and its flag are set, the other thirteen properties unchanged |
| MetaDataObject.MetaData.SetReplyTo | include/amqpcpp/metadata.h:217 | reply-to and its flag are set, nothing else changes |
| MetaDataObject.MetaData.SetCorrelationID | include/amqpcpp/metadata.h:218 | correlation id and its flag are set, nothing else changes |
| MetaDataObject.MetaData.SetPriority | include/amqpcpp/metadata.h:219 | priority and its flag are set, nothing else changes |
| MetaDataObject.MetaData.SetDeliveryMode | include/amqpcpp/metadata.h:220 | delivery mode and its flag are set, nothing else changes |
| MetaDataObject.MetaData.SetHeaders | include/amqpcpp/metadata.h:221 | the headers table and its flag are set, nothing else changes |
| MetaDataObject.MetaData.SetContentEncoding | include/amqpcpp/metadata.h:222 | content encoding and its flag are set, nothing else changes |
| MetaDataObject.MetaData.SetContentType | include/amqpcpp/metadata.h:223 | content type and its flag are set, nothing else changes |
| MetaDataObject.MetaData.SetClusterID | include/amqpcpp/metadata.h:224 | cluster id and its flag are set, nothing else changes |
| MetaDataObject.MetaData.SetAppID | include/amqpcpp/metadata.h:225 | application id and its flag are set, nothing else changes |
| MetaDataObject.MetaData.SetUserID | include/amqpcpp/metadata.h:226 | user id and its flag are set, nothing else changes |
| MetaDataObject.MetaData.SetTypeName | include/amqpcpp/metadata.h:227 | type name and its flag are set, nothing else changes |
| MetaDataObject.MetaData.SetTimestamp | include/amqpcpp/metadata.h:228 | timestamp and its flag are set, nothing else changes |
| MetaDataObject.MetaData.SetMessageID | include/amqpcpp/metadata.h:229 | message id and its flag are set, nothing else changes |
| MetaDataObject.MetaData.SetPersistent | include/amqpcpp/metadata.h:281-294 | delivery mode 2 with its flag, or the property removed altogether |
| MetaDataObject.Configured | include/amqpcpp/metadata.h:216-229 | the object after any sequence of setter calls on a default object is the property list those calls make |
| MetaDataObject.MetaData.Size | include/amqpcpp/metadata.h:300-322 | the uint32_t result is the length of what fill writes modulo 2^32, although the fields are summed in another order; it is that length exactly when the field sizes stay below 2^32 |
| MetaDataObject.MetaData.Fill | include/amqpcpp/metadata.h:328-349 | stays inside a buffer with room for the encoding and leaves the old contents followed by the properties in wire order |
| MetaDataObject.MetaData.OnTheWire | include/amqpcpp/metadata.h:328-349 | what is written, field by named field: content type behind bit 7 of the first octet down to cluster id behind bit 2 of the second |
| MetaDataObject.MetaData.Read | include/amqpcpp/metadata.h:142-161 | a new object whose meaning is the property list at the cursor, the cursor behind it; failure exactly where the frame ends too early |
| MetaDataObject.CopyFrame | include/amqpcpp/copiedbuffer.h:73-82 | while property list and separator stay below 2^32 octets together, a buffer of exactly the announced size is filled to the last octet with the property list and the 206 octet |
| MetaDataObject.Transferred | include/amqpcpp/metadata.h:142-161 | default object, any setter calls, copied frame, reading constructor: both objects are the same and exactly the property list is consumed if and only if every written string fits its length octet |
| Text.MemChrSplits | include/amqpcpp/address.h:92-120 | the memchr scans split a text at the same place as its first occurrence of the delimiter |
| Text.AtoiInvertsDecimal | include/amqpcpp/address.h:129 | the number a printed port is parsed to is that port |
| Text.DecimalIsTheNumber | include/amqpcpp/address.h:230 | a port is printed in decimal digits whose last is worth 0 to 9 and each other ten times more, without a leading zero |
| Text.AtoiReads | include/amqpcpp/address.h:130 | a port is read as blanks, an optional sign and digits, up to the first other character, and is the number the digits write |
| Addresses.Parse | include/amqpcpp/address.h:74-136 | the cursor scan yields the address that splitting the text at '@', '/' and ':' describes, and throws exactly on an unknown scheme |
| Addresses.ParseLogin | include/amqpcpp/address.h:95-107 | user before and password behind the first colon of the user data, an empty password without one |
| Addresses.ParseHost | include/amqpcpp/address.h:113-135 | host, port and vhost of the text behind the login, a colon counting only before the slash |
| Addresses.ParsedIsExpressible | include/amqpcpp/address.h:74-136 | no parsed address has ':' or '/' in its host, ':' or '@' in its user, '@' in its password or an empty vhost |
| Addresses.ImageOfTheParser | include/amqpcpp/address.h:74-136 | the addresses some text parses to are exactly those |
| Addresses.ToString | include/amqpcpp/address.h:221-240 | the string form, always with the login, the port left out exactly when it is 5672 |
| Addresses.WriteAddress | include/amqpcpp/address.h:308-330 | the stream form, without a wholly empty login, the port left out exactly when it is the scheme's default |
| Addresses.StringFormRoundTrip | include/amqpcpp/address.h:221-240 | over all addresses, parsing the string form gives the address back if and only if it is expressible and not amqps on 5672 |
| Addresses.ParsePrintParse | include/amqpcpp/address.h:221-240 | for every accepted text, parse, print and parse again gives the same address except for amqps on 5672 |
| Addresses.StreamFormRoundTrip | include/amqpcpp/address.h:308-330 | over all addresses, parsing the stream form gives the address back if and only if it is expressible and its login is not wholly empty |
| Addresses.MeaningOfPrintedWithoutLogin | include/amqpcpp/address.h:313-314 | a text printed without login is never read back as an address with an empty login, wherever else an '@' stands |
| AddressText.MeaningOfWritten | include/amqpcpp/address.h:74-136 | for every combination of optional parts: without a login guest/guest, without a colon an empty password, without a port 5671 or 5672 by scheme, without a path or with an empty one the vhost "/", and otherwise each part as it stands |
| AddressText.AcceptedTexts | include/amqpcpp/address.h:79-84 | exactly the texts behind amqp:// or amqps:// are accepted, and each consists of such parts and means what they designate |
| AddressText.StringFormIs | include/amqpcpp/address.h:221-240 | the string form is the login, the host, any port but 5672, a slash, and any vhost but "/" |
| AddressText.StreamFormIs | include/amqpcpp/address.h:308-330 | the stream form is any login but a wholly empty one, the host, any port but the scheme's, a slash, and any vhost but "/" |
| AddressOrder.CompareAntisymmetric | include/amqpcpp/login.h:146-153 | string comparison reverses with its arguments and is zero only on equal strings |
| AddressOrder.CompareTransitive | include/amqpcpp/login.h:146-153 | string comparison is transitive |
| AddressOrder.CompareIsPrecedes | include/amqpcpp/login.h:146-153 | one string is below another exactly if it has the smaller character at the first difference, or ends there |
| AddressOrder.EqualsIsSameParts | include/amqpcpp/address.h:247-263 | addresses are equal exactly when all parts agree, the host up to case and up to its first NUL |
| AddressOrder.HostKeyIs | include/amqpcpp/address.h:254-256 | hosts are compared up to their first NUL, with the letters A to Z as a to z and every other character as it is |
| AddressOrder.LessIsLexicographic | include/amqpcpp/address.h:281-300 | both operators are one lexicographic comparison by scheme, user, password, host, port and vhost |
| AddressOrder.LessIs | include/amqpcpp/address.h:281-300 | below means amqp before amqps, or then the smaller user, password, host, port or vhost, the first that differs deciding |
| AddressOrder.Trichotomy | include/amqpcpp/address.h:281-300 | exactly one of a < b, b < a and a == b holds for all addresses |
| AddressOrder.Irreflexive | include/amqpcpp/address.h:281-300 | no address is below itself |
| AddressOrder.Transitive | include/amqpcpp/address.h:281-300 | the order is transitive through all keys and the nested login order |
| AddressOrder.LessRespectsEquals | include/amqpcpp/address.h:247-300 | replacing addresses by equal ones never changes their order |
| Channel.SettledInPushOrder | include/amqpcpp/channelimpl.h:643-672 | in every run, with callbacks that push any operations, settlement n is of the n-th pushed operation, each at most once |
| Channel.ReplyCompletesInTurn | include/amqpcpp/channelimpl.h:643-672 | the next success reply after n settlements completes the operation pushed as number n |
| Channel.PushIsEnqueued | include/amqpcpp/channelimpl.h:158-163 | in every run, a requested operation waits behind all others, and nothing else changes |
| Channel.PlainQueue | include/amqpcpp/channelimpl.h:643-672 | without callbacks and closes, what was pushed is what was requested, in order, and n replies have settled exactly the first n requests |
| Channel.ReplyRunsTheCallback | include/amqpcpp/channelimpl.h:643-672 | a reply with nothing waiting changes nothing; otherwise exactly what the oldest operation's success callback pushes is added, and the channel is destroyed exactly if that callback does so |
| Channel.CloseRunsTheCallbacks | include/amqpcpp/channelimpl.h:610-632 | a close adds exactly what the callbacks of the operations it settled push, and destroys the channel exactly if one of them does |
| Channel.ReadyRunsItsCallback | include/amqpcpp/channelimpl.h:585-601 | what the ready callback pushes waits behind all others, and nothing is settled |
| Channel.DestroyedIsFinal | include/amqpcpp/channelimpl.h:661-662 | after a callback has destroyed the channel nothing of it changes |
| Channel.ReplySettlesOne | include/amqpcpp/channelimpl.h:656-668 | a reply settles one operation and keeps everything its callback pushed, the last pending callback included |
| Channel.SettledWeight | include/amqpcpp/channelimpl.h:656-668 | a settlement with either outcome leaves exactly one operation of the waiting callback trees less to come |
| Channel.EnoughRepliesSettleEverything | include/amqpcpp/channelimpl.h:643-672 | as many replies as operations in the waiting callback trees settle every one of them, so no re-entrant push is lost |
| Channel.DrainFailsEverything | include/amqpcpp/channelimpl.h:625-628 | failing everything ends, keeps the order, fails each operation once, those pushed by error callbacks included, and leaves nothing waiting unless a callback destroys the channel |
| Channel.CloseSettlesEverything | include/amqpcpp/channelimpl.h:610-632 | after the close reply a surviving channel waits for nothing: the oldest operation succeeded and every later one failed |
| Channel.StepKeepsOrder | include/amqpcpp/channelimpl.h:585-672 | pushes, replies, the ready callback and closes keep the queue: settled followed by waiting is what was pushed, in order |
| Channel.Deferred.Add | include/amqpcpp/deferred.h:176-180 | the successor is stored |
| Channel.Deferred.ReportSuccess | include/amqpcpp/deferred.h:83-90 | the callback runs, and the successor returned is the one after it has run |
| Channel.Deferred.ReportError | include/amqpcpp/deferred.h:160-171 | the operation is marked failed, its error callback runs, and the successor after that is returned |
| Channel.ChannelImpl.Push | include/amqpcpp/channelimpl.h:158-163 | the chain stays acyclic and ends at the newest pointer, extended by the operation |
| Channel.ChannelImpl.SettleOldest | include/amqpcpp/channelimpl.h:651-671 | through a callback that pushes or destroys the channel, the chain stays well formed and the oldest operation is settled; a destroyed channel is not advanced |
| Channel.ChannelImpl.ReportSuccess | include/amqpcpp/channelimpl.h:643-672 | the queue makes one reply step; a destroyed channel is left alone; synchronous mode is left only if something was waiting and the frame queue is empty, and is then up to what the callback sends |
| Channel.ChannelImpl.ReportClosed | include/amqpcpp/channelimpl.h:610-632 | the close succeeds, everything later fails in order, error callbacks and their pushes included, and the state is closed; the result is whether the channel survived the close's own callback |
| Channel.ChannelImpl.ReportReady | include/amqpcpp/channelimpl.h:585-601 | only a connected channel becomes ready; what the ready callback pushes is appended; synchronous mode is left if the frame queue is empty, and is then up to what the callback sends |
| Channel.ChannelImpl.ReportError | include/amqpcpp/channelimpl.h:625-628 | every waiting operation, and whatever the error callbacks push, is failed in push order, leaving an empty chain unless a callback destroys the channel |
| Channel.Operate | include/amqpcpp/channelimpl.h:585-672 | from construction through any sequence of pushes, replies, ready and close events, the object's chain is the queue of that run |
| RelaySpec.BytesAreConserved | proxy.cpp:28-105 | in every run and both directions, bytes received are bytes handed over followed by bytes still buffered; nothing is handed over before forwarding; a close leaves a prefix on the wire |
| RelaySpec.RunIsItsHistory | proxy.cpp:28-105 | in every run, by its events alone: closed exactly by the client leaving, by the server leaving once connected, or by a first message that is bad or whose copyout or connect call fails; forwarding exactly from the connect event on; the id and host of the first message; and the bytes received from the server |
| RelaySpec.StepKeepsInvariant | connectionprocessor.cpp:36-129 | every read, connect result, write, failed send and close keeps that equation |
| RelaySpec.RouteDependsOnBytesOnly | proxy.cpp:53-105 | while neither side leaves and libevent's copyout and connect calls succeed, open or closed, and the route, are the decision on the concatenated client bytes, however reads were split and events interleaved |
| RelaySpec.EveryRouteIsDecided | proxy.cpp:53-105 | in every run, failures and closes included, a route once taken, id and host, is the decision on the concatenated client bytes, and an open relay without a route has not received a first message |
| RelaySpec.EverythingIsHandedOver | proxy.cpp:35-37 | while open and forwarding, a run whose last send succeeded has handed over every byte the client sent, the first message included |
| RelaySpec.EverythingIsHandedBack | forwarder.cpp:19-27 | an open run whose last send to the client succeeded has handed the client every byte the server sent |
| RelaySpec.ServerReadIsHandedBack | forwarder.cpp:19-27 | a read from the server whose send succeeds is handed to the client behind everything read before, and nothing stays buffered |
| RelaySpec.WrittenIsSent | connectionprocessor.cpp:105-115 | the wire of either side gains bytes only by a write, and then the first ones that were handed over |
| RelaySpec.EndedIsFinal | connectionprocessor.cpp:118-129 | a relay that has ended holds nothing and does nothing more |
| RelaySpec.SplittingDoesNotMatter | proxy.cpp:53-105 | two runs over the same client bytes, however they end, never take different routes and put prefixes of the same stream on the wire; while both are open and their last sends succeeded they have forwarded the same stream, all of those bytes |
| RelaySpec.RoutedExactly | proxy.cpp:73-81 | a route is chosen exactly when the first twelve bytes are big-endian 1, 4 and an id configured under a non-empty host |
| RelaySpec.DecisionIs | proxy.cpp:61-81 | octet by octet: fewer than twelve decide nothing, the first eight must be 0 0 0 1 0 0 0 4, and the other four are a signed 32-bit id that is routed to its configured host or else rejected |
| RelaySpec.DecisionIsFinal | proxy.cpp:61-81 | bytes behind the first twelve never change the decision |
| RelaySpec.FailedConnectHoldsTheClient | proxy.cpp:28-33 | after a failed connect the relay stays open, hands nothing over and holds every byte the client sent, whatever else happens short of a connect event or the client leaving |
| Relay.EvBuffer.AddBuffer | connectionprocessor.cpp:105-115 | everything moves and the source is empty, or nothing moves |
| Relay.EvBuffer.CopyOut | proxy.cpp:66-71 | the first bytes, left in the buffer, or a result that is not their number |
| Relay.ConnectionProcessor.SendData | connectionprocessor.cpp:105-115 | true exactly when the data has moved behind the pending output |
| Relay.Proxy.DataReceived | proxy.cpp:53-105 | the two sockets' buffers, phase and id make the step the first message or the phase dictates, a failed copyout included |
| Relay.Proxy.OnConnected | proxy.cpp:28-38 | a success forwards all that was buffered, a failure changes nothing |
| Relay.Proxy.OnClientRead | connectionprocessor.cpp:22-28 | a read on the client's socket is one client-read step |
| Relay.Proxy.OnServerRead | forwarder.cpp:19-27 | a read on the server's socket moves what is buffered towards the client, or keeps it if the send fails |
| Relay.Proxy.OnServerEvent | connectionprocessor.cpp:36-54 | connect, failed connect and loss of the server are the corresponding steps |
| Relay.Proxy.OnClientEvent | connectionprocessor.cpp:118-129 | losing the client closes both sockets and discards what was still buffered |
| Relay.Serve | connectionprocessor.cpp:22-54 | from construction through any events, reads split in any way, the proxy and its forwarder are where the run is |
| RegistrySpec.IndexIsRemembered | proxymanager.cpp:30-83 | in every history, the index under a key holds exactly those who announced it since the last event that forgot it, once per announcement |
| RegistrySpec.LivesIff | connectionmanager.cpp:19-44 | in every history, a proxy is owned if and only if it was added while running and has since neither closed, nor been remembered under an id that was dropped, nor met a dropAll; and it has the id it announced |
| RegistrySpec.RunningIff | connectionmanager.cpp:46-54 | the managers run until the first dropAll |
| RegistrySpec.IndexAgreesWithLiveSet | proxymanager.cpp:30-42 | in every reachable state, an entry under a key of at least 0 is a live proxy whose own id is the key, and no proxy is indexed twice |
| RegistrySpec.EntriesAreLiveIff | proxymanager.cpp:35-37 | entries under a key are live in every history if and only if the key is not negative |
| RegistrySpec.DropByIdEndsTheRemembered | proxymanager.cpp:55-76 | dropById ends exactly the remembered proxies, keeps every other with its id, and empties that key only |
| RegistrySpec.OrphanIffClosedAfter | proxymanager.cpp:30-42 | a live proxy is missing from its key exactly when another with its id closed after it announced |
| RegistrySpec.SurvivorsAreOrphans | proxymanager.cpp:55-76 | the proxies with the id that survive dropById are exactly those |
| RegistrySpec.DropByIdEndsAllIff | proxymanager.cpp:55-76 | dropById ends every live proxy with the id if and only if none of them saw another close after announcing |
| RegistrySpec.DropByIdCanMiss | proxymanager.cpp:36 | for every id of at least 0 there is a history after which dropById misses a live proxy |
| RegistrySpec.DropAllIsFinal | connectionmanager.cpp:19-54 | after dropAll the live set and the index are empty in every later state of every history |
| Registry.ConnectionManager.AddConnection | connectionmanager.cpp:19-29 | the proxy is owned while running and not otherwise |
| Registry.ConnectionManager.DropConnection | connectionmanager.cpp:31-44 | while running, the proxy and no other leaves the set |
| Registry.ConnectionManager.DropAll | connectionmanager.cpp:46-54 | nothing is owned and nothing will be |
| Registry.ProxyManager.AddProxy | proxymanager.cpp:21-28 | the add step on set and index together |
| Registry.ProxyManager.OnIdRecv | proxymanager.cpp:78-83 | the announce step on set and index together |
| Registry.ProxyManager.DropConnection | proxymanager.cpp:30-42 | the close step on set and index together |
| Registry.ProxyManager.DropById | proxymanager.cpp:55-76 | the loop over the collected entries ends all of them and no other |
| Registry.ProxyManager.DropAll | proxymanager.cpp:45-53 | the drop-all step on set and index together |
| Registry.Replay | proxymanager.cpp:21-83 | from construction through any history of events, the two managers are where that history leads |
| Monitors.WithoutRemovesTheOne | include/amqpcpp/watchable.h:57-64 | removing takes out the one occurrence and keeps the rest in order |
| Monitors.WithoutMembers | include/amqpcpp/watchable.h:57-64 | what remains is exactly everything else |
| Monitors.Watchable.Add | include/amqpcpp/watchable.h:47-51 | the monitor is registered last |
| Monitors.Watchable.Remove | include/amqpcpp/watchable.h:57-64 | no occurrence of the monitor is left |
| Monitors.Monitor.Watch | include/amqpcpp/monitor.h:54-58 | all links agree with the new monitor included |
| Monitors.Monitor.Copy | include/amqpcpp/monitor.h:64-68 | the copy watches the same object, registered once, or nothing if the original is invalid; all links agree |
| Monitors.Monitor.Assign | include/amqpcpp/monitor.h:74-86 | all links agree afterwards, self-assignment included, which only moves the monitor to the end of the list |
| Monitors.Monitor.Destroy | include/amqpcpp/monitor.h:91-95 | all links agree without the monitor, no list mentions it |
| Monitors.DestroyWatchable | include/amqpcpp/watchable.h:67-70 | exactly the monitors of the destroyed object become invalid, and all other links agree |
| Monitors.ListsAreTheRun | include/amqpcpp/watchable.h:47-64 | a live watchable lists exactly the live monitors that the operations so far have pointed at it, once each |
| Monitors.OperationsDoTheirPart | include/amqpcpp/monitor.h:54-95 | where every monitor of a run points after one more construction, copy, assignment or destruction |
| Monitors.Replay | include/amqpcpp/monitor.h:54-95 | after any sequence of constructing, copying, assigning and destroying, all links agree and every monitor points at what that sequence says |
| Messages.CompleteBody | include/amqpcpp/message.h:95-130 | when only the last chunk reaches the size, the body begins with the first bodySize bytes of the concatenated chunks, on both paths |
| Messages.BodyOfAnyRun | include/amqpcpp/message.h:95-130 | after any chunks at all, the body is the last chunk if none was below the size, and otherwise the first bodySize bytes of what arrived from the first chunk below it on |
| Messages.PartialBody | include/amqpcpp/message.h:95-130 | before that, the body is everything received so far |
| Messages.CollectedIsFinal | include/amqpcpp/message.h:98-108 | a collected body is not changed by further chunks |
| Messages.CopyingClaim | include/amqpcpp/message.h:127-130 | on the copying path append answers true exactly when the total reaches bodySize |
| Messages.ClaimOfAnyRun | include/amqpcpp/message.h:109-130 | after any chunks, append answers whether what arrived from the first chunk below the size on reaches it |
| Messages.ClaimIsRightIff | include/amqpcpp/message.h:109-130 | for any sequence of chunks, the answer is right if and only if the body is empty, no chunk was borrowed, or what came after the borrowed ones reaches the size by itself |
| Messages.Message.SetBodySize | include/amqpcpp/message.h:78-87 | at any time, fails exactly on a size beyond size_t, and otherwise announces it and leaves the body alone |
| Messages.Message.Append | include/amqpcpp/message.h:95-130 | copies stay inside the allocation, the zero-copy body is the caller's own buffer, the body's value makes one append step |
| Messages.Receive | include/amqpcpp/message.h:78-130 | an object that is given its size and then any chunks has the body of that run, and its last answer is the one stated for it |
| Heartbeat.NextIsOnTheGrid | include/amqpcpp/libev.h:251-259 | before any close, the next heartbeat is due n + 1 intervals after the start, n heartbeats having been sent; an interval is timeout / 2 seconds, or 1 for a timeout below 4 |
| Heartbeat.ExpireFollowsReads | include/amqpcpp/libev.h:274-283 | the expiry time is 1.5 timeouts after the last readable event since the start, or the limit set at creation |
| Heartbeat.ClosesExactlyWhenIdle | include/amqpcpp/libev.h:248-249 | an expiry closes the connection if and only if 1.5 timeouts passed since the last readable event, or the initial limit passed with none |
| Heartbeat.InitialLimit | include/amqpcpp/libev.h:293-298 | for a new connection that limit is 60 seconds after its creation |
| Heartbeat.AlwaysRearmed | include/amqpcpp/libev.h:261-265 | if the limit is ahead at the start and every expiry is handled less than an interval late, the timer is always re-armed for a positive time until an idle close |
| Heartbeat.HeartbeatsAreOnTime | include/amqpcpp/libev.h:251-259 | under the same conditions heartbeat n is sent in [t0 + n h, t0 + (n + 1) h) |
| Heartbeat.HeartbeatIffDue | include/amqpcpp/libev.h:251-259 | an expiry that does not close sends one heartbeat if the next one is due, and otherwise none |
| Heartbeat.TimerIsForTheEarliest | include/amqpcpp/libev.h:261-265 | the timer is always for the next heartbeat or the expiry time, whichever is earlier; only an expiry closes |
| Heartbeat.WithoutHeartbeats | include/amqpcpp/libev.h:226-245 | until heartbeats are negotiated, or with a timeout of 0: no heartbeat is sent, and the connection is closed exactly if the connect timer expires before it is ready |
| Heartbeat.IntervalPositiveIffNotLate | include/amqpcpp/libev.h:261-265 | that margin is sharp: an expiry before the limit computes a positive interval to the next one exactly when it is handled less than a heartbeat interval late |
| Heartbeat.Wrapper.Start | include/amqpcpp/libev.h:341-364 | next heartbeat, timer and accepted interval after negotiation; a zero timeout changes nothing else |
| Heartbeat.Wrapper.OnActive | include/amqpcpp/libev.h:274-283 | only a readable event with heartbeats on moves the expiry time |
| Heartbeat.Wrapper.OnExpired | include/amqpcpp/libev.h:220-267 | close, heartbeat or wait, and the timer re-armed accordingly |
| Heartbeat.Handle | include/amqpcpp/libev.h:220-364 | a connection that is created, negotiates a heartbeat and handles any events is where that run is |

## Left out

- Sockets, DNS, libevent and libev calls, logging, command line, JSON: reduced to events, byte buffers and a `bool` for whether a call succeeds.
- `Config::read`, `Controller`, `Server`, `ControlChannel` and `main`: stream-library semantics or single branches; the configuration is a map from id to host and port.
- The headers table: an opaque format of which only a size and read-back law is assumed, as a precondition (`ContentHeader.Lawful`); its encoder is not part of this model.
- The bodies of `ReceivedFrame::next*`, `ChannelImpl::push`, `ChannelImpl::reportError` and `~Watchable` are compiled into a closed library, so the model follows their header documentation; `send`, `onSynchronized` and the frame classes are not modelled.
- `MetaData::set`, the r-value setters, the getters and `persistent`: field-by-field copies, reads of one field, and setters with the same effect as the modelled ones.
- Floats, doubles and `DecimalField`, the other event-loop adapters, `addresses.h`, the `Deferred` subclasses' setters: thin or unrelated to the properties above.
- Text.Atoi: a port number outside the range of int is undefined in C; the model takes its mathematical value modulo 65536. Round trips are stated on the resulting port and do not depend on it.
- Addresses.Parse: the text is exactly the given characters; bytes beyond the given size that strncmp could see in a shorter buffer are not modelled. Case folding is that of the C locale.
- Channel.ChannelImpl.RunCallback: a callback, of success, error or readiness, is given by what it does to its channel, the operations it pushes and whether it then destroys the channel; replies inside a callback do not occur, as frames are parsed by one event loop. The channel-wide error callback is not modelled.
- Channel.ChannelImpl.Send: what a sent frame does to synchronous mode and the queue of frames is left open.
- Relay.Proxy.OnServerEvent: a connect result arrives as a later event, at most once, and never inside `connect`, as libevent promises for a non-blocking connect.
- Relay.Proxy.Close: closing includes the drop by the registry that the close callback causes, which destroys the forwarder and discards its buffers.
- RegistrySpec.Step: a proxy is a number that is never reused, and the set of shared pointers is a map because it alone owns the proxies, so a weak pointer locks exactly while its proxy is in it; mutexes are left out, all steps belong to one event thread.
- Heartbeat.Step: times are real numbers; what libev does after a repeat that is not positive, or with the timer after an idle close, is left open, and runs are not followed beyond that close.
- Messages.Message.Append: after a second setBodySize whose size an allocated body has no room for, or which is below what is filled, append is outside its contract.
- MetaDataObject.CopyFrame: the frame is its property list alone, without the rest of a header frame, whose class is not part of this model.
- RegistrySpec.IndexIsRemembered: std::unordered_multimap promises no order among equal keys; the model keeps the order of announcement, and no other result depends on it.
- Monitors.Linked: the sets of live monitors and watchables are ghost parameters; object lifetime itself is not modelled.
