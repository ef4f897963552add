# rb-papergpu control scripts in Dafny

This project models the two control scripts of the PAPER GPU correlator that
hold its deterministic logic:

- `bin/paper_ctl.rb` starts and stops correlator integrations. It computes the
  mcount rate, builds the Hashpipe status-key list for every
  X-engine instance, and plans the synchronised start (`INTSYNC`) from the
  `GPUMCNT` values reported by the instances. It also decides when `INTSTAT=stop`
  is broadcast and which command words are accepted.
- `bin/paper_feng_init.rb` initialises ROACH2 F engines. It reads `HOST[:FID]`
  arguments and connects to each engine. It means to keep the engines that pass
  the pre-flight checks; as written it stops at the first engine that fails
  one (see Findings), and `FengRun.InitFengines` follows the intended filter.
  It derives each 10 GbE link's IP and MAC addresses, the ARP table, the
  EQ block and the X-engine peer names. It then runs the ordered configuration:
  disable transmission, FID, FFT shift, EQ, network cores, corner-turner mode,
  the sync-arm rounds and noise seeding, input selection, the reset pulse, and
  finally enabling transmission.

Modules:

- `Wrappers`: `Option` and `Result`.
- `Decimal`: decimal text, Ruby's `split`.
- `PaperCtl`: `bin/paper_ctl.rb`.
- `FengAddress`: argument parsing, addresses, MAC text, ARP table, EQ block.
- `FengPlan`: the configuration run as data. It gives the writes of each step
  and the whole run as a trace of (device, register, value) events, with
  per-device and per-register projections.
- `FengRun`: the imperative run. Each F engine is a `Fengine` object whose
  register map the run overwrites. `Configure` loops over steps and engines and
  is proved to produce exactly the planned trace. The sync-counter waits read
  from a supplied stream of counter readings.

Inputs the scripts take from the outside world are parameters of the model:

- the Redis contents, as a snapshot of status hashes;
- DNS resolution, as a function in `FengPlan.Config`;
- what connecting to each engine reports, as `FengRun.Probe`;
- the engines' prior register contents;
- the `sync_count` readings;
- the clock.

## Model

| member | source | states |
|---|---|---|
| PaperCtl.McntsPerSecond | bin/paper_ctl.rb:14-26 | when spectra per mcount divides 1024, the rate is a multiple of 2048 and the least such multiple not below the truncated (`to_i`) rate |
| PaperCtl.DefaultMcntsPerSecond | bin/paper_ctl.rb:17-25 | 8 spectra per mcount give 12288 mcounts per second |
| PaperCtl.DelayMcnts | bin/paper_ctl.rb:121 | the delay in mcounts is the least multiple of 2048 not below intdelay times the rate |
| PaperCtl.DelayMcntsExact | bin/paper_ctl.rb:121 | rounding the delay up to a multiple of 2048 changes nothing: it equals intdelay times the rate |
| PaperCtl.StatusKeys | bin/paper_ctl.rb:83-86 | the keys of `xboxes.product(insts)`; their number, order and distinctness are the four lemmas below |
| PaperCtl.StatusKeysLength | bin/paper_ctl.rb:84-86 | there are num_xbox times num_inst status keys |
| PaperCtl.StatusKeyAt | bin/paper_ctl.rb:84-86 | key k belongs to host px(k / num_inst + 1), instance k mod num_inst, so the list is host-major |
| PaperCtl.StatusKeyIndex | bin/paper_ctl.rb:84-86 | each key's position is recovered from its host number and instance alone |
| PaperCtl.StatusKeysDistinct | bin/paper_ctl.rb:84-86 | no status key appears twice |
| PaperCtl.Fetch | bin/paper_ctl.rb:91-96 | one looked-up value (or nil) per key, in key order |
| PaperCtl.Compact | bin/paper_ctl.rb:101 | dropping nils keeps each present value once, in key order: its length is the number of present values and the value at key k lands at the number of present values before k; nothing is lost iff every key answered; empty iff none did |
| PaperCtl.SeqMin | bin/paper_ctl.rb:118 | the minimum is an element no larger than any other |
| PaperCtl.SeqMax | bin/paper_ctl.rb:118 | the maximum is an element no smaller than any other |
| PaperCtl.Counters | bin/paper_ctl.rb:115 | each present GPUMCNT text is read as its decimal value |
| PaperCtl.PresentMcnts | bin/paper_ctl.rb:99-115 | the counters are exactly the values of the keys that have a GPUMCNT |
| PaperCtl.Start | bin/paper_ctl.rb:98-133 | nothing is published when no GPUMCNT is present; otherwise the missing count, min and max, the delay of intdelay times 12288, INTSYNC = max + delay (not below any counter when intdelay is non-negative) and the four-line message |
| PaperCtl.StartMessage | bin/paper_ctl.rb:130 | the `start_msg` text; what it reads back as is StartMessageDecodes |
| PaperCtl.StartWarning | bin/paper_ctl.rb:109-112 | the missing-GPUMCNT warning is given exactly when some key has no value |
| PaperCtl.StartMessageDecodes | bin/paper_ctl.rb:130 | the start message is the four KEY=VALUE lines INTSYNC, INTCOUNT, INTSTAT=start, OUTDUMPS=0, and its numbers read back as planned |
| PaperCtl.Stop | bin/paper_ctl.rb:135-154 | INTSTAT=stop is published iff some instance reports INTSTAT; the warning count is the number of silent keys |
| PaperCtl.ParseCommand | bin/paper_ctl.rb:77-81 | only start, stop and test are accepted, each to its own command |
| PaperCtl.Ctl | bin/paper_ctl.rb:77-165 | exit status 1 iff the command is not accepted; a bad command or test publishes nothing; stop publishes INTSTAT=stop iff some INTSTAT exists; start publishes iff some GPUMCNT exists, and then it publishes Start's message |
| PaperCtl.NumXhostAsWritten | bin/paper_ctl.rb:64-66 | as written, `-x N` replaces the number of instances per host and keeps every other option |
| PaperCtl.NumXhostAsWrittenExample | bin/paper_ctl.rb:64-66 | as written, -x 2 keeps eight hosts and two instances each: 16 keys, the last on px8 |
| PaperCtl.NumXhost | bin/paper_ctl.rb:64-66 | the corrected `-x N` handler: N becomes the number of X hosts; its keys are NumXhostKeys |
| PaperCtl.NumXhostKeys | bin/paper_ctl.rb:64-66 | read as the number of hosts, -x N gives 4N keys, all on px1..pxN |
| Decimal.ParseNatToString | bin/paper_feng_init.rb:88 | the decimal text of n reads back as n |
| Decimal.NatToStringInjective | bin/paper_feng_init.rb:211 | different numbers have different decimal texts |
| Decimal.ParseIntToString | bin/paper_ctl.rb:130 | the text of any integer, sign included, reads back as it |
| FengAddress.RubySplit | bin/paper_feng_init.rb:85 | `hf.split(':')`: the pieces between separators (SplitOn) with exactly the trailing empty pieces dropped; no piece holds the separator, the last is not empty, and the empty argument has no pieces |
| FengAddress.ExtraFields | bin/paper_feng_init.rb:85-88 | HOST:N:REST gives host HOST with FID N; fields after the second are ignored |
| Decimal.SplitOnJoin | bin/paper_feng_init.rb:85 | splitting at a separator yields the part before it, then the split of the rest |
| FengAddress.ParseHostFid | bin/paper_feng_init.rb:84-100 | an argument is refused only with itself as the reported text |
| FengAddress.ExplicitFid | bin/paper_feng_init.rb:86-88 | HOST:N gives host HOST with FID N |
| FengAddress.PfHostFid | bin/paper_feng_init.rb:89-96 | a bare pfN gives FID N - 1 |
| FengAddress.OtherHostRefused | bin/paper_feng_init.rb:91-95 | any other bare host is refused |
| FengAddress.TrailingColon | bin/paper_feng_init.rb:85 | HOST: is accepted exactly when HOST is, and then reads the same |
| FengAddress.ParseArgs | bin/paper_feng_init.rb:84-100 | on success there is one pair per argument |
| FengAddress.ParseArgsSpec | bin/paper_feng_init.rb:84-100 | success iff every argument parses, pairs in argument order; otherwise the first bad argument is reported |
| FengAddress.SwIp | bin/paper_feng_init.rb:180 | the switch-side IP of link i of engine fid; its range and distinctness are SwAddressesDistinct |
| FengAddress.SwMac | bin/paper_feng_init.rb:184 | the switch-side MAC of link i of engine fid; its range and distinctness are SwAddressesDistinct |
| FengAddress.GpuIp | bin/paper_feng_init.rb:198 | the GPU-side IP of link i of engine fid; its range and distinctness are GpuAddressesDistinct |
| FengAddress.GpuMac | bin/paper_feng_init.rb:202 | the GPU-side MAC of link i of engine fid; its distinctness is GpuAddressesDistinct |
| FengAddress.SwAddressesDistinct | bin/paper_feng_init.rb:164-186 | switch-side IP and MAC of link i lie in base+32..base+63 and are equal only for the same FID and link |
| FengAddress.GpuAddressesDistinct | bin/paper_feng_init.rb:170-204 | GPU-side IPs lie in base+513..base+1288; IPs and MACs are equal only for the same FID and link |
| FengAddress.PeerName | bin/paper_feng_init.rb:211 | the X-engine host name `px{fid+1}-{i+2}`; that it names one link only is PeerNameRoundTrip |
| FengAddress.PeerNameRoundTrip | bin/paper_feng_init.rb:209-211 | the peer name pxA-B is read back as FID A-1 and link B-2 |
| FengAddress.PeerNameExample | bin/paper_feng_init.rb:210 | FID 0, link 0 talks to px1-2 |
| FengAddress.MacText | bin/paper_feng_init.rb:185 | the verbose MAC display; its shape and read-back are MacTextRoundTrip |
| FengAddress.MacTextRoundTrip | bin/paper_feng_init.rb:185 | a 48-bit MAC prints as 17 characters, colons exactly at every third place, lowercase hex elsewhere, and reads back as the same MAC |
| FengAddress.ArpWords | bin/paper_feng_init.rb:167-168 | the ARP table holds 512 words; what each entry holds is ArpEntryIsMac |
| FengAddress.ArpEntryIsMac | bin/paper_feng_init.rb:167-168 | ARP entry j (words 2j, 2j+1) is sw_mac_base + j, high word 0x0202 |
| FengAddress.SwMacInArp | bin/paper_feng_init.rb:167-186 | every switch-side MAC is the ARP table's entry at its own offset |
| FengAddress.BuildArpTable | bin/paper_feng_init.rb:167-168 | the in-place array construction yields the ARP word layout |
| FengAddress.EqBlock | bin/paper_feng_init.rb:155 | 2048 coefficients, each 128 times the EQ value |
| FengPlan.Schedule | bin/paper_feng_init.rb:133-309 | the order of the configuration steps, the sync block only with sync; what each register receives is proved by the History and Order lemmas below |
| FengPlan.Plan | bin/paper_feng_init.rb:133-309 | every write of a completed run, in order; Configure is proved to perform exactly these |
| FengPlan.StepTouches | bin/paper_feng_init.rb:133-309 | which registers each step writes |
| FengPlan.ReplayLastWrite | bin/paper_feng_init.rb:291-295 | a register ends with the last value written to it, or keeps its old value if never written |
| FengPlan.PlanWrites | bin/paper_feng_init.rb:133-309 | an engine's writes to a register are those of the pre-sync, sync and post-sync parts in order |
| FengPlan.TransmitHistory | bin/paper_feng_init.rb:135-309 | each engine's eth_sw_en and eth_gpu_en receive 0 and then 1, nothing else |
| FengPlan.FidHistory | bin/paper_feng_init.rb:142-145 | each engine's FID register receives its own FID once |
| FengPlan.SettingsHistory | bin/paper_feng_init.rb:147-285 | FFT shift, each of the 16 EQ memories, corner-turner mode and input selection are written once with the configured values |
| FengPlan.LinkHistory | bin/paper_feng_init.rb:174-215 | each link register of each engine is written once, with that engine's address, ARP table or peer address |
| FengPlan.ResetHistory | bin/paper_feng_init.rb:289-296 | each reset register receives 0, 1, 0 |
| FengPlan.SyncArmHistory | bin/paper_feng_init.rb:226-273 | with sync, sync_arm receives 0, 1, 0, 1, 0; without, nothing |
| FengPlan.SeedHistory | bin/paper_feng_init.rb:261-267 | with sync, each noise seed receives the seed once; without, nothing |
| FengPlan.DisableFirst | bin/paper_feng_init.rb:133-139 | the run opens with the disable sweep: its first 2n writes set both enables to 0 on every engine |
| FengPlan.TransmitOrder | bin/paper_feng_init.rb:133-309 | across all engines the enable writes are the disable sweep, then eth_gpu_en=1 on every engine, then eth_sw_en=1 on every engine |
| FengPlan.ArmOrder | bin/paper_feng_init.rb:235-250 | across all engines sync_arm receives 0 on all, then twice 1 on all followed by 0 on all; nothing without sync |
| FengRun.Fengine.Write | bin/paper_feng_init.rb:137-138 | a write changes that register only |
| FengRun.RunStep | bin/paper_feng_init.rb:135-139 | one step writes every engine in kept order, and each engine's registers follow its own writes |
| FengRun.RunSteps | bin/paper_feng_init.rb:133-309 | steps run one after another, each a full sweep |
| FengRun.NextEdge | bin/paper_feng_init.rb:245-246 | the wait ends just after the first reading that differs from the baseline, or never if the stream does not change |
| FengRun.WaitEdge | bin/paper_feng_init.rb:245-246 | the polling loop finds exactly that reading |
| FengRun.ArmRounds | bin/paper_feng_init.rb:236-255 | two rounds of wait-then-arm; the sync time is that of the second round; a wait that never ends stops the run there |
| FengRun.ArmNoise | bin/paper_feng_init.rb:261-272 | seeds are written, then after one more counter change the noise generators are armed |
| FengRun.RunSync | bin/paper_feng_init.rb:226-273 | the sync block writes exactly its planned steps, stopping at the first wait that never ends; once both rounds are done the sync time is clock(1) + 1 |
| FengRun.Configure | bin/paper_feng_init.rb:133-309 | a completed run writes exactly the planned trace and every engine's registers are its old ones with its writes applied; with sync and no engine the run fails before writing sync_arm; a stall leaves the trace at the steps before that wait, and a stall at the noise wait still reports the sync time already stored |
| FengRun.StalledTransmitOff | bin/paper_feng_init.rb:226-273 | a run stopped at a wait has written only the disabling zeros to the transmit enables |
| FengRun.ConfiguredState | bin/paper_feng_init.rb:133-309 | after a completed run both enables are 1, FID and settings are the configured ones, the resets are 0; with sync, sync_arm is 0 and the seeds hold the seed |
| FengRun.DefaultConfiguredState | bin/paper_feng_init.rb:15-24 | with the default options a completed run leaves FFT shift 2047, corner-turner mode 0, the ADC inputs selected, sync_arm 0 and every seed 0x11111111 |
| FengRun.ConfiguredLinks | bin/paper_feng_init.rb:174-215 | after a completed run each link register holds its derived address, ARP table or peer address |
| FengRun.Kept | bin/paper_feng_init.rb:106-131 | the entries whose engine passes, in argument order; characterised by KeptSpec |
| FengRun.PassingIndices | bin/paper_feng_init.rb:106-131 | the positions of the engines that pass, ascending, and all of them |
| FengRun.KeptSpec | bin/paper_feng_init.rb:106-131 | the kept list is the passing engines' pairs, in argument order, FIDs unchanged |
| FengRun.AsWrittenAgrees | bin/paper_feng_init.rb:106-131 | when every engine passes, the script as written keeps them all, like the intended filter |
| FengRun.PreflightAsWritten | bin/paper_feng_init.rb:106-128 | as written, the run continues iff every engine passes, and then with all of them |
| FengRun.AsWrittenDropsGoodEngine | bin/paper_feng_init.rb:108-118 | one unprogrammed engine stops the script, though the filter should keep the good one |
| FengRun.Connect | bin/paper_feng_init.rb:106-131 | new engine objects for exactly the kept pairs, in order, with their FIDs and starting registers |
| FengRun.InitFengines | bin/paper_feng_init.rb:69-311 | no arguments prints usage; a bad argument exits with it; otherwise the kept engines are configured and a completed run writes the planned trace |

## Left out

- Redis access (`hget`, `publish`, storing `roachf_init_time`): the status hashes are an input snapshot, the published message and the sync time are results.
- The DNS lookup of peer names is the `resolve` function of `FengPlan.Config`; a failing lookup is not modelled.
- The busy-waits on `sync_count` read a supplied finite stream of readings; a wait that the stream never ends is reported as a stall rather than spinning forever. `sleep 1` is left out; `Time.now` is a clock parameter.
- The `Roach2Fengine` library (KATCP register and memory access, `programmed?`, `listdev`, `rcs`, `insel`, `arm_noise` internals): registers are a map, `insel` is one write of the input choice, `arm_noise` one strobe, and what a connection reports is a `Probe`.
- Option parsing; options are parameters (`PaperCtl.Options`, `FengPlan.Config`). `--eq` always yields an integer (an `Integer` option times 128, rounded, over 128), so the EQ value is an integer.
- Printed and verbose output (progress lines, `IPAddr` dotted quads, the revision display at bin/paper_feng_init.rb:120-126) is presentation and not modelled; MAC text is.
- paper_signal_levels.rb: floating-point level arithmetic in code that is not part of this model.
- PaperCtl.Counters: `to_i(0)` is modelled on canonical decimal text only (no leading zero, which would make it octal); radix prefixes (0x, 0b, 0) and trailing text are not.
- FengAddress.ParseHostFid: `Integer()` is modelled on plain decimal digits only; radix prefixes, underscores, signs and the exception on non-numeric text are not. Arguments containing a newline are excluded as well, because Ruby's `^pf(\d+)$` matches line by line and `Integer()` accepts surrounding whitespace.
- FengAddress.TrailingColon: states equal results only when the argument is accepted, because on refusal the reported text includes the colon.
- FengAddress.EqBlock: does not model the 32-bit wrap of the integer array for EQ values with |128 * eq| of 2^31 or more.
- PaperCtl.Start: requires every present GPUMCNT to be decimal text, because of the `to_i(0)` restriction above.

Where the code and its documentation disagree, the model follows the code:

- With the default 8 spectra per mcount the code computes 12288 mcounts per second: 200000000 / 16384 rounded up to a multiple of 2048.
- The ARP table is modelled as the 512 32-bit words the code builds: word 2j is the high half and word 2j+1 the low half of entry j.
- The comment at bin/paper_feng_init.rb:209 names the peer `px{fid-1}`; the code, and its example at :210, use `px{fid+1}`.

## Findings

| source | as written | input that shows it | evidently intended | confidence | as-written member | corrected member |
|---|---|---|---|---|---|---|
| bin/paper_feng_init.rb:108-118 | `return nil` inside the `map` block leaves the script at the first engine that fails a check, so `compact!` at :131 never sees a nil | `pf1` programmed with the F-engine design, `pf2` not programmed | skip the failing engine and configure the rest (comment at :130) | not executed | FengRun.AsWrittenDropsGoodEngine | FengRun.Connect |
| bin/paper_ctl.rb:64-66 | `-x/--numxhost N` stores N as the number of instances per host | `-x 2` with defaults gives 16 keys on px1..px8 | N is the number of X hosts (its help text) | not executed | PaperCtl.NumXhostAsWrittenExample | PaperCtl.NumXhostKeys |
