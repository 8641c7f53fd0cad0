# pynetkit interface bring-up, modelled in Dafny

pynetkit turns a netkit `lab.conf` and a table of subnets, one per collision
domain, into the shell lines that bring up every host's interfaces. Its
`main.py` does this in four steps, and the project models each of them:

- **Line cleaning** (`ConfLines`). `get_conf_contents` strips trailing
  newlines and drops the lines that end up empty.
- **Statement parsing** (`Text`, `IfaceStatement`). `parse_iface_statement`
  matches `host[index] = "D` at the start of a line. It returns the host, the
  index and the domain letter, and rejects every other line (the Python code
  raises `ValueError`).
- **Topology building** (`Topology`). The loop in `main` appends each parsed
  interface to its domain's list in a `defaultdict(list)` and skips rejected
  lines. The dictionary keeps its keys in order of first appearance.
- **Allocation and emission** (`IPv4`, `Allocator`, `Emitter`, `Lab`). For
  each domain in key order, `main`:
  - looks up its subnet, which raises `KeyError` if the domain has none;
  - zips the subnet's `hosts()` with the domain's interfaces and the netmask;
  - prints `echo 'ifconfig eth<index> <ip> netmask <mask> up' >> <host>.startup`
    for every resulting triple.

Pure code becomes functions. The two loops of `main` that build `domains` and
`ble` become methods with loop invariants, proved equal to the functions.
So is the printing loop, which returns its lines instead of printing them.
Each function has a partner:

- the parser has a declarative match predicate, with soundness,
  completeness and rejection lemmas;
- the topology fold has a per-domain reference definition and a
  first-appearance order;
- allocation has a closed-form layout of `ble`;
- the emitted line has a decoder that reads the triple back.

The whole run is `Lab.Run`. It either fails with a `KeyError` on the first
domain that has no subnet, or yields lines that each name a declared
interface, an address inside that interface's domain subnet, and the subnet's
netmask.

Some behaviour of the code is easy to miss, and the model states it
explicitly:

- **More interfaces than host addresses.** `zip` stops at the shorter input,
  so the surplus interfaces get no line and nothing fails (`Allocator.Zip`,
  `Allocator.DomainBlock`).
- **Empty host name.** The pattern demands at least one host character, so
  `[0] = "A"` is not a statement (`IfaceStatement.WellFormedIface`).
- **Repeated declarations.** Every declaration is kept, even a repeated one,
  and each one takes an address (`Topology.FoldLists`).

## Model

| member | source | states |
|---|---|---|
| Text.TakeWhile | main.py:12 | A greedy character-class run: run + rest is the input, every run character is in the class, and rest cannot extend the run |
| Text.TakeWhileExact | main.py:12 | A run that cannot be extended is exactly what the greedy scan returns (greedy matching is unique) |
| Text.DecimalString | main.py:59 | The decimal text of a number is non-empty, all digits, and without a leading zero |
| Text.DecimalRoundTrip | main.py:59 | Reading back the decimal text of a number gives the number |
| Text.TakeNumberDecimal | main.py:59 | The decimal text of a number followed by a non-digit is read back as that number, leaving the rest |
| IfaceStatement.ParseIfaceStatement | main.py:23-30 | An accepted line yields a non-empty `[a-z0-9_]` host, a non-empty digit index and an `[A-Z]` domain |
| IfaceStatement.ParseComplete | main.py:23-28 | Every line that starts with a match of the pattern is accepted, with exactly the matched groups |
| IfaceStatement.ParseSound | main.py:23-28 | Every accepted line starts with a match of the pattern whose groups are the result |
| IfaceStatement.ParseRejects | main.py:29-30 | A rejected line has no match of the pattern at its start |
| IfaceStatement.ParseIgnoresSuffix | main.py:24 | The match is anchored at the start only: text after an accepted prefix never changes the result |
| ConfLines.RStripNewlines | main.py:19 | `rstrip("\n")` returns a prefix that does not end in a newline, and only newlines were removed |
| ConfLines.RStripReadLine | main.py:17-19 | A line from `readlines()` loses exactly its one trailing newline, if it has one |
| ConfLines.CleanLines | main.py:19-20 | No more lines come out than went in, and every kept line is non-empty with no trailing newline |
| ConfLines.CleanLinesAppend | main.py:19-20 | Cleaning works line by line: cleaning a concatenation concatenates the cleaned parts, so line order is kept |
| ConfLines.CleanLinesMembership | main.py:19-20 | A line is kept exactly when it is the non-empty stripped form of some input line |
| ConfLines.CleanLinesKeepsClean | main.py:19-20 | Lines that are already clean pass through unchanged |
| ConfLines.CleanLinesIdempotent | main.py:19-20 | Cleaning twice is the same as cleaning once |
| Topology.Append | main.py:46 | `domains[d].append(i)` adds the key at the end if it is new, and otherwise leaves the key order alone; it appends `i` to list `d` and leaves every other list unchanged |
| Topology.Step | main.py:44-48 | One loop iteration keeps the table well formed: keys are distinct and match the stored lists |
| Topology.Fold | main.py:43-48 | The table after the loop is well formed, and every key and stored interface is one the pattern can capture |
| Topology.Build | main.py:38-48 | The table built from the cleaned lines is well formed and holds only capturable keys and interfaces |
| Topology.FoldLists | main.py:43-48 | Each domain's list holds exactly its parsed declarations in line order: none are dropped, deduplicated or reordered, and rejected lines add nothing |
| Topology.FoldKeys | main.py:43-48 | The keys are exactly the domains that some accepted line declares |
| Topology.FoldOrder | main.py:38-48 | Keys are in the order in which their domains first appear |
| Topology.FoldSkipsRejected | main.py:47-48 | Removing a rejected line anywhere does not change the table |
| Topology.BuildDomains | main.py:38-48 | The loop builds the table `Build` defines, and each domain's list is its declarations in line order |
| IPv4.Netmask | main.py:55 | `netmask` of the subnet, the mask whose bit pattern NetmaskTopBits states and whose meaning NetmaskSelectsBlock states |
| IPv4.Hosts | main.py:55 | `hosts()` yields the host count of the block: 1 for a /32, 2 for a /31, and the block size minus 2 otherwise |
| IPv4.HostsInBlock | main.py:55 | The host addresses increase strictly and lie in the block; for a /30 or wider they exclude the network and broadcast addresses |
| IPv4.HostsCoverBlock | main.py:55 | For a /30 or wider, every address strictly between the network and broadcast addresses is a host |
| IPv4.NetmaskTopBits | main.py:55 | The netmask is `prefix` one-bits followed by `32 - prefix` zero-bits |
| IPv4.NetmaskSelectsBlock | main.py:55 | An address is in the block exactly when it agrees with the base address on the top `prefix` bits, the bits the netmask keeps |
| IPv4.DottedQuad | main.py:59 | `str()` of an address, the text that DottedQuadRoundTrip reads back and DottedQuadChars bounds |
| IPv4.DottedQuadRoundTrip | main.py:59 | An address printed in dotted-quad form and parsed back gives the address |
| IPv4.DottedQuadInjective | main.py:59 | Different addresses are printed differently |
| IPv4.DottedQuadChars | main.py:59 | A printed address is non-empty and uses only digits and dots |
| Allocator.Zip | main.py:55 | `zip` stops at the shorter input: the length is the minimum of the two lengths |
| Allocator.ZipEntries | main.py:55 | The i-th triple pairs the i-th host with the i-th interface and the repeated netmask |
| Allocator.DomainBlock | main.py:53-55 | A domain contributes min(declared interfaces, host addresses) triples, with no exhaustion error |
| Allocator.DomainBlockEntries | main.py:53-55 | The domain's i-th declared interface gets the subnet's i-th host address and the subnet's netmask |
| Allocator.DomainBlockAddresses | main.py:53-55 | A domain's addresses lie in its subnet and are pairwise distinct; for a /30 or wider they avoid the network and broadcast addresses |
| Allocator.Allocation | main.py:52-55 | The outcome of the allocation loop over the first n domains: their blocks in key order, or the KeyError; its meaning is stated by the Allocation lemmas below |
| Allocator.AllocationOkIff | main.py:52-53 | Allocation succeeds exactly when every domain has a subnet |
| Allocator.AllocationFirstMissing | main.py:52-53 | A failure names the first domain, in key order, that has no subnet |
| Allocator.AllocationErrSticks | main.py:52-53 | Once the loop has raised, later domains do not change the outcome |
| Allocator.AllocationLength | main.py:52-55 | On success, `ble` has the sum over domains of min(interfaces, hosts) entries |
| Allocator.AllocationPrefixOf | main.py:52-55 | Handling more domains only appends: the `ble` of the first m domains is a prefix of the `ble` of the first n |
| Allocator.AllocationBlock | main.py:52-55 | On success, each domain's block sits in `ble` at the sum of the sizes of the blocks before it |
| Allocator.AllocationStep | main.py:52-55 | Handling the next domain appends exactly its block |
| Allocator.AllocationLastBlock | main.py:52-55 | The last domain handled ends `ble` with its block |
| Allocator.AllocationCaptured | main.py:52-55 | Every allocated interface is one the statement pattern captured |
| Allocator.AllocationEntries | main.py:52-55 | Every entry of `ble` belongs to a domain: its interface is declared there, its address is in that domain's subnet, and it carries that subnet's netmask |
| Allocator.Allocate | main.py:52-55 | The loop computes the allocation function, and returns the KeyError as soon as a domain has no subnet |
| Emitter.IfconfigCommand | main.py:58-59 | The `ifconfig eth<index> <ip> netmask <mask> up` command of a triple, read back by StartupLineRoundTrip |
| Emitter.StartupLine | main.py:61-62 | The `echo '<command>' >> <host>.startup` line of a triple, read back by StartupLineRoundTrip |
| Emitter.StartupLineRoundTrip | main.py:57-62 | A printed line reads back as exactly its index, address, netmask and host |
| Emitter.StartupLineInjective | main.py:57-62 | Different triples give different lines |
| Emitter.EmitStartupLines | main.py:57-63 | One line per `ble` entry, in `ble` order, each the formatted command for that entry |
| Lab.LabOutput | main.py:37-63 | What `main` prints for the raw lines and the subnets, or the KeyError; its meaning is stated by LabOutputFails and LabOutputLines |
| Lab.Run | main.py:37-63 | `main` cleans the lines, builds the table, allocates, and emits, giving the defined output |
| Lab.LabOutputFails | main.py:52-53 | The run fails exactly when a used domain has no subnet, and then it names the first such domain |
| Lab.LabOutputLines | main.py:37-63 | Each printed line reads back as a declared interface, with an address from its domain's subnet and that netmask, appended to the script of its own host |
| Lab.ExampleStatement | main.py:23-30 | A line `host[0] = "A"` declares eth0 of `host` in domain A |
| Lab.ExampleParse | main.py:43-45 | The example `lab.conf` lines `pc1[0] = "A"`, `pc2[0] = "A"`, `r1[0] = "A"` all parse, in order |
| Lab.ExampleFold | main.py:43-48 | The loop over the three example declarations gives the single domain A holding pc1, pc2 and r1 in that order |
| Lab.ExampleBuild | main.py:38-48 | The example `lab.conf` lines build the example `domains` table |
| Lab.ExampleAllocation | main.py:52-55 | pc1, pc2 and r1 declaring eth0 in A on 10.0.0.0/29 get 10.0.0.1, .2 and .3 with netmask 255.255.255.248 |
| Lab.ExampleLinePc1 | main.py:57-62 | The line for pc1 is `echo 'ifconfig eth0 10.0.0.1 netmask 255.255.255.248 up' >> pc1.startup` |
| Lab.ExampleLinePc2 | main.py:57-62 | The line for pc2 is `echo 'ifconfig eth0 10.0.0.2 netmask 255.255.255.248 up' >> pc2.startup` |
| Lab.ExampleLineR1 | main.py:57-62 | The line for r1 is `echo 'ifconfig eth0 10.0.0.3 netmask 255.255.255.248 up' >> r1.startup` |

## Left out

- Reading `lab.conf` (main.py:15-17). The model starts from the list `readlines()` returns, so universal-newline translation of `\r\n` is not modelled.
- Loading `subnets.yml` and building `IPv4Network` values (main.py:33-34). The subnet table is a parameter. `IPv4Network`'s rejection of a block with host bits set is built into the `IPv4.Network` type rather than modelled as an error.
- Printing (main.py:63). `Lab.Run` returns the lines in print order.
- IfaceStatement.ParseIfaceStatement: `\d` is modelled as the ASCII digits only. Python's `re` also matches other Unicode decimal digits, and such a line would be accepted in Python but rejected here.
- IPv4.Hosts: the model follows current CPython, where a /31 yields both addresses and a /32 yields its single address. Older Python releases give different results for these two prefixes.
- Gateway routes and connectivity tests. `main.py` has no code that generates either.
- test_a.py. It reads ping results that a netkit run writes to disk, and it does not call the core.
- The exception raised when a domain has no subnet is modelled as an `Err` value. That it propagates out of `main` is reflected in `Lab.Run` producing no lines.
