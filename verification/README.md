# Verification model of the compass-adapters algorithms

compass-adapters deploys OpenStack and Ceph with Chef cookbooks, Ansible roles and a few scripts. Most of it
is declarative; the parts that decide something are modelled here in Dafny and proved to keep their promises.
`dafny verify dfyconfig.toml` checks the whole project.

| file | subject |
|---|---|
| `Names.dfy`, `Wrappers.dfy` | node names in Ruby's order; the optional value and other small shared definitions |
| `Election.dfy` | `keepalived_master`: election, stickiness and trimming of the tagged node, as one call and as interleaved steps with stale searches |
| `Keepalived.dfy` | the MASTER/BACKUP assignment built on the election |
| `KeyShare.dfy` | the `openssh_key` provider: one generated key pair copied to every member of a role, and what a run that dies half way leaves |
| `TwoStores.dfy` | the PLUMgrid plugin as a protocol over the Neutron database and the Director |
| `Pools.dfy` | the plugin's IP allocation pools |
| `Journals.dfy`, `JournalBounds.dfy`, `SsdTurns.dfy` | the Ceph OSD recipe's journal partitions: the algorithm, what it achieves, and which SSDs it serves |
| `Deployment.dfy`, `Planning.dfy` | whole runs of the OSD recipe, dying while they plan or while they deploy: what is prepared, and what is planned and lost |
| `DeviceMapper.dfy` | the device-mapper path of a logical volume and its decoder |
| `Collectd.dfy`, `CollectdReader.dfy` | the recursive collectd settings printer, and a reader for its text |
| `Snapshots.dfy` | EBS snapshot lookup and pruning |
| `HealthReport.dfy` | the per-action report of the Rally health check |

## How the source is represented

Code that changes things step by step is a method, and an object whose methods update fields is a class. Each
such method is proved to compute a function of the old state, and the lemmas are about that function, over all
inputs or over every run. What comes from outside is a parameter: search results, answers of the Director,
results of shell commands, the key pair ssh-keygen would make. An exception is a Boolean or optional result.

- A Chef search is a set of names where the caller sorts it and a sequence where the caller takes the first
  element as it comes. A stale search is any subset of the names ever tagged.
- The Neutron database and the Director are maps. A Director call succeeds or fails without effect; a database
  transaction restores the database on an exception. Identifiers are fresh numbers, standing for UUIDs. A
  Director update or disassociation of something it does not hold changes nothing, and a group deleted on either
  side takes its rules along.
- A run that dies is a number of actions, or a device, after which nothing more happens. Chef writes a provider's
  files when its action is over, so a copied key's files come after all its saves. Attributes that a recipe only
  sets are saved when the run is over, tags at once.
- Disk sizes are whole MB and a partition starts where the last listed one ends, plus the gap. Devices are named
  by their position in `node['block_device']`. A device is free when it has no partition; the recipe reads this
  off a count of matching lines in `/proc/partitions`.
- A Ruby hash printed by collectd is the sequence of its entries. A value that is neither Fixnum nor boolean is
  the text its `to_s` gives.
- Durations are real numbers; the report is taken before rounding.

## Where code and comments part

- The keepalived recipe says that it supports two nodes only. With up-to-date searches the code settles any
  number (`Keepalived.ExactlyOneMaster`), whatever runs die. With stale searches two nodes are enough for two MASTERs,
  and for a tagged BACKUP (`Keepalived.StaleSearchesGiveTwoMasters`, `Keepalived.StaleMembersCanTagABackup`,
  `Keepalived.DeathCanTagABackup`); the exact conditions, for one run of the recipe and for any sequence of runs, are
  `Keepalived.SecondMasterExactly`, `Keepalived.TwoMastersExactly`, `Keepalived.TaggedBackupExactly` and
  `Keepalived.TaggedBackupOverRuns`.
- `create_subnet` says that the first address is reserved. It is handed out when the gateway is at or below the
  network address; `Pools.AllocatePools` has the exact condition.
- `to_dm_name` says that doubling lets the separator be located. Two volumes share a path when a hyphen touches
  the separator; `DeviceMapper.CollideExactly` and `DeviceMapper.SharedExactly` have the exact conditions.
- Incrementing the SSD index twice looks like a round robin. It is one over every other SSD only:
  `SsdTurns.OddSsdsGetNothing`, and `SsdTurns.OddSsdsServedExactly` for when the others get their first journal.
- The OSD recipe saves its device list inside the walk and skips the walk when it finds a list. A run that dies in
  the walk can leave eligible disks out for good (`Planning.LeftOutForGood`; `Planning.AllListedExactly` says when
  none is) and can lose a partition (`Planning.PartitionLost`; `Planning.NothingLostExactly`).
- The recipe skips a device that has its status. A run that dies between ceph-disk-prepare and the save of the status
  has the device prepared again: `Deployment.PreparedTwice`, and `Deployment.PreparedExactly` for the count.
- The key provider saves a copied key pair one key at a time and looks at the private key only. A run that dies
  between the saves leaves the node without its other keys for good: `KeyShare.StuckExactly`. With stale searches
  two key pairs can arise: `KeyShare.StaleSearchesGiveTwoKeys` and `KeyShare.TwoKeysExactly`.
- A floating IP update that raises may have changed something all the same:
  `TwoStores.RefusedUpdateChangesNothingExactly` and `TwoStores.RevokedUpdateChangesNothingExactly`.
- The plugin wraps its Director calls in database transactions. A transaction that also had to make the tenant's
  default security group leaves that group at the Director when it fails: `TwoStores.TransactionsAreAtomic`.
- Quoting in collectd's output does not escape, so that different trees can print alike:
  `CollectdReader.OneSettingLikeTwo`.

## Model

| member | source | states |
|---|---|---|
| Names.BeforeExactly | chef/cookbooks/keepalived/libraries/default.rb:7-14 | The order of names: a prefix comes first, otherwise the smaller character at the first place where they differ |
| Election.TagStore.KeepalivedMaster | chef/cookbooks/keepalived/libraries/default.rb:2-33 | The answer and the tags after one call, for any two search results, including the exception when the role has no members |
| Election.FirstElection | chef/cookbooks/keepalived/libraries/default.rb:4-20 | From no tag, with up-to-date calls of fixed members: the least member is tagged from its first call on, nobody else ever is, every call answers it, and without members and tags there is no answer |
| Election.LeastEverTaggedIsTagged | chef/cookbooks/keepalived/libraries/default.rb:4-31 | For every interleaving of searches, elections, single deletions and crashes, however stale the searches: the least name ever tagged is tagged, so trimming never leaves no master |
| Election.LeastKeepsItsTag | chef/cookbooks/keepalived/libraries/default.rb:21-31 | A tagged name that is still the least ever tagged when a run ends has its tag at both ends |
| Election.OnlyTheLeastIsSafe | chef/cookbooks/keepalived/libraries/default.rb:21-31 | From every reachable state, any other name can lose its tag to one idle node with a stale search |
| Election.FreshCallSettles | chef/cookbooks/keepalived/libraries/default.rb:7-31 | From whatever stale searches left behind, one up-to-date call leaves exactly the least name ever tagged, and later up-to-date calls and left-over deletions keep it and answer it |
| Election.CallIsARun | chef/cookbooks/keepalived/libraries/default.rb:2-33 | The function a whole call computes is a run of the interleaved steps |
| Keepalived.Cluster.Converge | chef/cookbooks/keepalived/recipes/default.rb:26-41 | One recipe run writes router id, priority and state once, from the elected node, and nothing when the election raises or the run dies after it |
| Keepalived.MasterOutranksBackup | chef/cookbooks/keepalived/recipes/default.rb:26-41 | The MASTER's priority is the higher number, and its router identifier another |
| Keepalived.AtMostOneMaster | chef/cookbooks/keepalived/recipes/default.rb:26-41 | With an up-to-date search for the tag, nodes joining at any time, any result whatever of the search for members and any runs dying after the election, over every run: at most one node is ever tagged, only that node can be MASTER, and neither the tag nor a written instance ever changes |
| Keepalived.OneMaster | chef/cookbooks/keepalived/recipes/default.rb:26-41 | With both searches up to date, at any point of any run, whatever runs died: of the nodes that ran to the end the tagged one is MASTER with 110 and every other is BACKUP with 101 |
| Keepalived.SecondMasterExactly | chef/cookbooks/keepalived/recipes/default.rb:26-41 | From a state with at most one MASTER, a run with any search results ends with two if and only if it lives, is the node's first to do so, elects the node itself, and there is a MASTER already |
| Keepalived.TaggedBackupExactly | chef/cookbooks/keepalived/recipes/default.rb:26-41 | From a state without a tagged BACKUP, a run ends with one if and only if it finds no tag and its least member, the node, has settled as BACKUP, or it is the first to live on a node that is tagged, does not find that tag and elects another |
| Keepalived.TwoMastersExactly | chef/cookbooks/keepalived/recipes/default.rb:26-41 | Over any sequence of runs, with any search results and any of them dying: two nodes end up MASTER if and only if two nodes each elected themselves in the first of their live runs that found somebody |
| Keepalived.TaggedBackupOverRuns | chef/cookbooks/keepalived/recipes/default.rb:26-41 | At some point of such a sequence a tagged node is BACKUP if and only if a node elected another in its first live run and got its tag in a later run, or in an earlier one that no run had trimmed by then |
| Keepalived.StaleMembersCanTagABackup | chef/cookbooks/keepalived/recipes/default.rb:26-41 | A concrete run with a stale search for members that leaves the only tagged node BACKUP |
| Keepalived.DeathCanTagABackup | chef/cookbooks/keepalived/recipes/default.rb:26-41 | A concrete run that dies with the tag, after which the node settles as a tagged BACKUP |
| Keepalived.ExactlyOneMaster | chef/cookbooks/keepalived/recipes/default.rb:26-41 | Once all members have run to the end, whatever other runs died, exactly one of any number of members is MASTER and tagged |
| Keepalived.StaleSearchesGiveTwoMasters | chef/cookbooks/keepalived/recipes/default.rb:26-41 | A concrete run with two stale searches that ends with two tags and two MASTERs |
| KeyShare.ChefServer.NodeElection | chef/cookbooks/openssh/libraries/default.rb:21-42 | Elected node and tags for any search results, including a search that does not even find the caller |
| KeyShare.FirstCallerIsTagged | chef/cookbooks/openssh/libraries/default.rb:21-42 | Over any row of elections with an up-to-date search for the tag, and whatever members the second search finds: exactly the first caller that finds itself first, or finds nobody, is tagged, and every later election answers it, also when a smaller name has joined |
| KeyShare.TaggedExactly | chef/cookbooks/openssh/libraries/default.rb:21-42 | Over every history with fixed members exactly the least one is tagged, from its first run on |
| KeyShare.EveryRunElects | chef/cookbooks/openssh/providers/key.rb:4-6 | The election is held in every run, also when the key is there, and no other machine changes |
| KeyShare.ChefServer.Generate | chef/cookbooks/openssh/providers/key.rb:7-40 | The elected node's branch, whole or dying before or after ssh-keygen or after the save of all three keys, and when a key file cannot be read |
| KeyShare.ChefServer.Copy | chef/cookbooks/openssh/providers/key.rb:41-56 | The other branch, whole or dying after any number of its three saves and three files |
| KeyShare.ChefServer.Create | chef/cookbooks/openssh/providers/key.rb:4-58 | Attributes, files and tags after one run of the provider, which may die anywhere, on the elected node or on another |
| KeyShare.OneTriple | chef/cookbooks/openssh/providers/key.rb:4-58 | Over every history with up-to-date searches and fixed members, whatever runs die: a node's keys are unset or the first one, two or three of the one generator's triple, they never change once set, and the first live run after the generation sets them |
| KeyShare.CopyIsFinal | chef/cookbooks/openssh/providers/key.rb:41-56 | The first live run after the generation decides for good which keys and which files a member has, by the action after which it died |
| KeyShare.StuckExactly | chef/cookbooks/openssh/providers/key.rb:41-52 | A member has the private key without the rest of the triple, for good, if and only if that run died after its first or second save |
| KeyShare.GeneratorGenerates | chef/cookbooks/openssh/providers/key.rb:7-19 | The generator has its keys if and only if one of its runs reached the save with both key files there from the start or, where there was no private key, made by ssh-keygen in one of its runs so far |
| KeyShare.GenerationIsFinal | chef/cookbooks/openssh/providers/key.rb:7-40 | The first such run leaves the attributes and key files with the pair that was there, or else that ssh-keygen made first; the authorized file has the generator's own key added if that run did not die after the save, and is the file as found if it did |
| KeyShare.AuthorizedStay | chef/cookbooks/openssh/providers/key.rb:18-33 | Over every history what was authorized on the generator stays, in its place; at most its own public key is added, at the end |
| KeyShare.PasswordlessMesh | chef/cookbooks/openssh/providers/key.rb:24-59 | Once the generator has its keys and members have run after that, none of whose runs died, each one's private key belongs to a public key in every other's authorized_keys |
| KeyShare.LoginExactly | chef/cookbooks/openssh/providers/key.rb:24-59 | Whatever runs died: with the generator's keys, member a can log in to member b if and only if a's deciding run lived to write the private key file and b's to authorize the public key, or the files said so from the start |
| KeyShare.SecondKeyExactly | chef/cookbooks/openssh/providers/key.rb:4-58 | With any search results: from a state with one private key in use, a run ends with two if and only if it is on a node without one, elects the node itself, gets to the save, and finds or makes another key than the one in use |
| KeyShare.TwoKeysExactly | chef/cookbooks/openssh/providers/key.rb:4-58 | Over any sequence of runs with any search results: two private keys are in use at the end if and only if one of the runs was such a run |
| KeyShare.StaleSearchesGiveTwoKeys | chef/cookbooks/openssh/providers/key.rb:4-58 | Two concrete runs with stale searches that end with two private keys in use |
| TwoStores.Plugin.CreateNetwork | ansible/roles/plumgrid-plugin/templates/plumgrid_plugin.py:102-130 | Two Director calls in one transaction, for the default security group and for the network: both stores after success, and after a failure the rolled-back database beside whatever the Director took |
| TwoStores.Plugin.CreateRouter | ansible/roles/plumgrid-plugin/templates/plumgrid_plugin.py:403-425 | Both stores after success, the rolled-back database after a Director failure |
| TwoStores.Plugin.CreateSecurityGroup | ansible/roles/plumgrid-plugin/templates/plumgrid_plugin.py:598-625 | The tenant's default group first, unless the database has one, then the group with its rules |
| TwoStores.Plugin.DeleteSecurityGroup | ansible/roles/plumgrid-plugin/templates/plumgrid_plugin.py:649-683 | The group and its rules gone from both stores, or from neither |
| TwoStores.Plugin.Update | ansible/roles/plumgrid-plugin/templates/plumgrid_plugin.py:427-441 | update_router (and update_network, 132-157): both stores or neither |
| TwoStores.Plugin.Delete | ansible/roles/plumgrid-plugin/templates/plumgrid_plugin.py:159-179 | delete_network (and delete_router, 443-458): both stores or neither |
| TwoStores.Plugin.CreateFloatingIp | ansible/roles/plumgrid-plugin/templates/plumgrid_plugin.py:525-539 | Creation with its compensating deletion, which can fail in turn |
| TwoStores.Plugin.UpdateFloatingIp | ansible/roles/plumgrid-plugin/templates/plumgrid_plugin.py:541-560 | Update with its compensating disassociation, also when the database refused; none when the request has no port_id key |
| TwoStores.Plugin.DeleteFloatingIp | ansible/roles/plumgrid-plugin/templates/plumgrid_plugin.py:562-574 | Director first, database only after it succeeded |
| TwoStores.Plugin.DisassociateFloatingIps | ansible/roles/plumgrid-plugin/templates/plumgrid_plugin.py:576-596 | No floating IP on the port, one, or several; the Director is told about exactly one |
| TwoStores.Plugin.CreateSecurityGroupRules | ansible/roles/plumgrid-plugin/templates/plumgrid_plugin.py:695-731 | All rules of a bulk in both stores, or none; the group must be in the database |
| TwoStores.Plugin.DeleteSecurityGroupRule | ansible/roles/plumgrid-plugin/templates/plumgrid_plugin.py:733-756 | The database forgets the rule before the Director is asked |
| TwoStores.WhoMayRunAhead | ansible/roles/plumgrid-plugin/templates/plumgrid_plugin.py:102-756 | Over every sequence of calls, any of them failing: networks and routers agree with their contents, the Director's floating IPs are among the database's, the database's security groups and rules among the Director's |
| TwoStores.TransactionsAreAtomic | ansible/roles/plumgrid-plugin/templates/plumgrid_plugin.py:102-731 | A transactional call that raises leaves the database as it was, and the Director too if and only if it did not take the tenant's new default group just before; then it has exactly that group with its rules in addition |
| TwoStores.ReturnsExactly | ansible/roles/plumgrid-plugin/templates/plumgrid_plugin.py:102-756 | Any call, from any state, returns if and only if the database takes it, what it names is there, at most one floating IP is on a port to be freed, and the Director carries out what it is asked |
| TwoStores.ReturnedMeansBoth | ansible/roles/plumgrid-plugin/templates/plumgrid_plugin.py:102-731 | A transactional call that returns has made exactly the change asked for to both stores, groups with their rules and the missing default group included, under fresh identifiers |
| TwoStores.ReturnedMeansDone | ansible/roles/plumgrid-plugin/templates/plumgrid_plugin.py:525-756 | Any other call that returns has made exactly the change asked for: the floating IP is on the port given, in both stores that hold it, or gone; the port is free; the rule is gone; all else is as before |
| TwoStores.RaisedMeans | ansible/roles/plumgrid-plugin/templates/plumgrid_plugin.py:525-756 | What any other call has changed when it raises: nothing, a stranded floating IP, the rule in the database only, or no more than floating IPs for an update |
| TwoStores.OneDefaultGroup | ansible/roles/plumgrid-plugin/templates/plumgrid_plugin.py:598-625 | Over every sequence of calls the database never has two default groups for one tenant |
| TwoStores.AgreementLostExactly | ansible/roles/plumgrid-plugin/templates/plumgrid_plugin.py:102-756 | From agreeing stores, a call leaves them agreeing, associations included, if and only if a condition on the stores before it and on what the Director answers to it holds |
| TwoStores.HarmlessRunsAgree | ansible/roles/plumgrid-plugin/templates/plumgrid_plugin.py:102-756 | A run of calls that each meet that condition ends with identical stores |
| TwoStores.LeakedExactly | ansible/roles/plumgrid-plugin/templates/plumgrid_plugin.py:598-756 | After any run the Director has, beyond the database, exactly the rules whose deletion it refused and whose group has not been deleted since, and the rules of default groups that failed calls left behind |
| TwoStores.GroupsLeftExactly | ansible/roles/plumgrid-plugin/templates/plumgrid_plugin.py:598-683 | Beyond the database's, the Director has exactly the default groups of failed calls; no later call removes one |
| TwoStores.OrphanedExactly | ansible/roles/plumgrid-plugin/templates/plumgrid_plugin.py:525-574 | After any run the database has, beyond the Director, exactly the floating IPs whose creation and compensation were both refused and that have not been deleted since |
| TwoStores.AssociatedDifferentlyExactly | ansible/roles/plumgrid-plugin/templates/plumgrid_plugin.py:525-596 | After any run the stores associate a floating IP with different ports if and only if the database accepted an update that the Director refused, which had it elsewhere, the compensation took no effect, and no later call has mended it: an accepted update, its deletion, or the one disassociation of its port |
| TwoStores.RefusedUpdateChangesNothingExactly | ansible/roles/plumgrid-plugin/templates/plumgrid_plugin.py:541-560 | An update the database refused changes either store if and only if the request names a port, exactly one floating IP is on it, and the Director carries out the compensation |
| TwoStores.RefusedUpdateStripsThePort | ansible/roles/plumgrid-plugin/templates/plumgrid_plugin.py:541-560 | In that case the owner loses the port, in both stores |
| TwoStores.RevokedUpdateLeaves | ansible/roles/plumgrid-plugin/templates/plumgrid_plugin.py:541-560 | After an update the database accepted and the Director refused, only this floating IP has changed: it is on no port if the compensation took effect, on the requested one otherwise |
| TwoStores.RevokedUpdateChangesNothingExactly | ansible/roles/plumgrid-plugin/templates/plumgrid_plugin.py:541-560 | So the database, and the Director, are unchanged if and only if that is where it was before |
| Pools.AllocatePools | ansible/roles/plumgrid-plugin/templates/plumgrid_plugin.py:789-811 | At most two ordered, separated pools inside the hosts; they are exactly the hosts without gateway and reserved address if and only if the gateway is absent or above the network address, or there is no host; otherwise all hosts are handed out |
| Pools.SubnetRequest.FillIn | ansible/roles/plumgrid-plugin/templates/plumgrid_plugin.py:336-347 | Default gateway and pools, the error for 0.0.0.0/32, and with the default gateway max(0, 2^(w-p) - 4) addresses for every prefix length |
| Journals.Host.FindSsds | chef/cookbooks/ceph/libraries/default.rb:154-168 | The SSDs among the block devices, each once and in order |
| Journals.Host.MakePartition | chef/cookbooks/ceph/libraries/default.rb:274-303 | The next partition, full or cut to the end of the disk, or none when there is no room |
| Journals.Host.FindJournal | chef/cookbooks/ceph/recipes/osd.rb:81-90 | The search takes the first SSD with room from the index on, stays in bounds, ends, and leaves the index two further |
| Journals.Host.AssignJournals | chef/cookbooks/ceph/recipes/osd.rb:67-102 | The carved disks and the saved OSD list when the walk ends or dies at any device, before or after its journal was carved |
| JournalBounds.OsdsAreTheEligible | chef/cookbooks/ceph/recipes/osd.rb:71-94 | Every eligible disk becomes one OSD, in order |
| JournalBounds.OsdsExactly | chef/cookbooks/ceph/recipes/osd.rb:71-94 | On the disks as found: a device becomes an OSD, once and in order, if and only if its name has "sd" in it, it is rotational and it has no partition; it is left as it was and carries no journal |
| JournalBounds.SsdsAreExactly | chef/cookbooks/ceph/libraries/default.rb:154-168 | The SSDs are the non-rotational devices with "sd" in the name, in the order of the devices |
| JournalBounds.JournalCount | chef/cookbooks/ceph/recipes/osd.rb:71-100 | With h eligible disks and room for c journals: at least min(c, ceil(h/2)), at most min(c, h), and used plus left is c |
| JournalBounds.TwoMissesMeanFull | chef/cookbooks/ceph/recipes/osd.rb:80-92 | Two eligible disks in a row without a journal mean that every SSD is full and no later disk gets one |
| JournalBounds.JournalsDistinct | chef/cookbooks/ceph/recipes/osd.rb:80-94 | Each journal is a new partition of an SSD and no two OSDs share one |
| JournalBounds.CarveLayout | chef/cookbooks/ceph/libraries/default.rb:274-303 | Repeated mkpart makes as many partitions as fit, in order, disjoint, 100 apart, inside the disk, and all but the last of full length |
| JournalBounds.WorkedLayout | chef/cookbooks/ceph/libraries/default.rb:274-303 | In figures: the four partitions an empty disk of 16000 MB gets with the default length |
| JournalBounds.RoomIsCeiling | chef/cookbooks/ceph/libraries/default.rb:274-303 | That number is ceil((T - E0 - 100) / (J + 100)), and 0 when T <= E0 + 100 |
| JournalBounds.DiskIsCarved | chef/cookbooks/ceph/recipes/osd.rb:71-100 | The walk leaves each disk with exactly one partition more for every journal it put there, laid out as above |
| SsdTurns.OddSsdsGetNothing | chef/cookbooks/ceph/recipes/osd.rb:81-90 | As long as each SSD at an even place with a neighbour has room for its own share of the eligible disks, on the disks as found, the SSDs at odd places are untouched |
| SsdTurns.OddSsdsServedExactly | chef/cookbooks/ceph/recipes/osd.rb:81-90 | When the SSDs at odd places have room, one of them gets a journal if and only if some such share exceeds the room |
| Deployment.OsdNode.Converge | chef/cookbooks/ceph/recipes/osd.rb:64-176 | One run: the list is worked out only if none is saved and saved as the walk goes on, a run may die in the walk, then each undeployed device is prepared and marked until a command fails or the run dies, before or after the mark |
| Deployment.LoopExactly | chef/cookbooks/ceph/recipes/osd.rb:140-176 | In one loop a device is prepared if and only if it is undeployed, all undeployed ones before it succeed and ceph-disk-prepare works; it is marked unless the run dies first; the loop finishes if and only if all undeployed ones succeed |
| Deployment.PreparedExactly | chef/cookbooks/ceph/recipes/osd.rb:135-176 | Over any number of runs, however they end: a device has been prepared once if it became deployed, plus once for every run that died between preparing it and saving that; none that came deployed is prepared |
| Deployment.PreparedAtMostOnce | chef/cookbooks/ceph/recipes/osd.rb:135-176 | So it is prepared at most once if and only if no run died so at it, or one did and it is not deployed yet |
| Deployment.PreparedTwice | chef/cookbooks/ceph/recipes/osd.rb:149-172 | Two runs that prepare a device twice, the first dying before the save |
| Deployment.FinishedRunDeploysAll | chef/cookbooks/ceph/recipes/osd.rb:140-176 | A run that finishes leaves every device deployed, and if there is one a further run changes nothing and finishes |
| Planning.FinishedRunIsLast | chef/cookbooks/ceph/recipes/osd.rb:64-176 | After a run that finishes no further run changes anything, with devices or without |
| Planning.SavedListIsFinal | chef/cookbooks/ceph/recipes/osd.rb:64-103 | Once a list with a device in it is saved, no run, however it fails, changes the list or the partitions |
| Planning.SavedListIsAPrefix | chef/cookbooks/ceph/recipes/osd.rb:64-103 | A nonempty list of any later time, and the disks, are those that one run which found no list had left when its walk ended or died |
| Planning.ListIsWhatItReached | chef/cookbooks/ceph/recipes/osd.rb:64-103 | On the disks as found: the devices on the list of any later time are exactly the eligible disks that the first run to get past one got past before its walk ended or died |
| Planning.AllListedExactly | chef/cookbooks/ceph/recipes/osd.rb:64-103 | Every eligible disk is on the list if and only if there is none, or the first run that gets past one gets past the last one |
| Planning.LeftOutForGood | chef/cookbooks/ceph/recipes/osd.rb:64-103 | Two eligible disks, a first run that dies at the second, and any runs after it: the list has the first disk only |
| Planning.PartitionsAccountedFor | chef/cookbooks/ceph/recipes/osd.rb:64-103 | After any runs, each disk has exactly one partition more, laid out by repeated mkpart, for every saved journal on it and for every run that died between a carving on it and the save |
| Planning.NothingLostExactly | chef/cookbooks/ceph/recipes/osd.rb:64-103 | On the disks as found: no such partition is lost if and only if no run, while no device is saved, dies right after the carving at a device to which an undisturbed run gives a journal |
| Planning.PartitionLost | chef/cookbooks/ceph/recipes/osd.rb:64-103 | A first run that dies right after carving for the only eligible disk leaves a partition and no list |
| Planning.AsPlannedExactly | chef/cookbooks/ceph/recipes/osd.rb:64-103 | Disks and list are those of one undisturbed walk over the disks as found if and only if every eligible disk is listed and nothing is lost |
| Planning.PlannedOnce | chef/cookbooks/ceph/recipes/osd.rb:64-103 | If the first run does not die in the walk, the disks and journals are those it planned, however later runs fail |
| DeviceMapper.DecodePath | chef/cookbooks/lvm/libraries/provider_lvm_logical_volume.rb:46 | The decoder finds group and name of any path, hyphens at the head of the name going to the group |
| DeviceMapper.PathInWords | chef/cookbooks/lvm/libraries/provider_lvm_logical_volume.rb:46 | The path in full for a group of two words and a volume of one |
| DeviceMapper.RecoveredExactly | chef/cookbooks/lvm/libraries/provider_lvm_logical_volume.rb:136-138 | Both come back if and only if the name does not start with a hyphen |
| DeviceMapper.Injective | chef/cookbooks/lvm/libraries/provider_lvm_logical_volume.rb:46 | Names that do not start with a hyphen: equal paths, equal volumes |
| DeviceMapper.CollideExactly | chef/cookbooks/lvm/libraries/provider_lvm_logical_volume.rb:46 | For all names: two paths are equal if and only if moving leading hyphens to the group makes the pairs equal |
| DeviceMapper.SharedExactly | chef/cookbooks/lvm/libraries/provider_lvm_logical_volume.rb:46 | A path has a second owner if and only if a hyphen touches the separator |
| DeviceMapper.DecodeSound | chef/cookbooks/lvm/libraries/provider_lvm_logical_volume.rb:136-138 | The decoder accepts nothing but the path of what it returns |
| Collectd.CollectdSettings | chef/cookbooks/collectd/libraries/default.rb:30-47 | The recursive printer's text is that of the flattened configuration, at every level |
| Collectd.KeyKeepsLetters | chef/cookbooks/collectd/libraries/default.rb:20-23 | A symbol key is printed with its own letters in order; only case and underscores change |
| Collectd.KeyIsCamelCase | chef/cookbooks/collectd/libraries/default.rb:20-23 | A symbol of one word is printed with its first letter large and every other small, one of several words word by word, and a string key as it is |
| Collectd.FlattenExactly | chef/cookbooks/collectd/libraries/default.rb:30-47 | Entry by entry: a scalar gives one setting, an array one to each element, a hash a section to each name, with the key as the section's tag unchanged |
| CollectdReader.PrinterRoundTrip | chef/cookbooks/collectd/libraries/default.rb:30-47 | Reading the text back, each line at its depth and sections properly closed, gives the tree with arrays as repeated settings and hashes as repeated sections, if and only if no text holds a line break and keys are single words |
| CollectdReader.ReadPrints | chef/cookbooks/collectd/libraries/default.rb:30-47 | Whatever text the reader takes is the text of the tree it gives, so it takes nothing but printed text |
| CollectdReader.TakesExactly | chef/cookbooks/collectd/libraries/default.rb:30-47 | The reader is complete: it takes a text, any text, if and only if some tree without line breaks and with single-word keys prints as it |
| CollectdReader.CollidesExactly | chef/cookbooks/collectd/libraries/default.rb:30-47 | So a tree that is not of this kind prints like one that is if and only if the reader takes its text |
| CollectdReader.OneSettingLikeTwo | chef/cookbooks/collectd/libraries/default.rb:25-47 | Such a tree, at every level: a value with a closing quote and a line break prints like two settings |
| CollectdReader.PrinterInjective | chef/cookbooks/collectd/libraries/default.rb:30-47 | Two such trees printed alike are alike |
| CollectdReader.ScalarComesBack | chef/cookbooks/collectd/libraries/default.rb:25-28 | Every printed value reads back as itself |
| Snapshots.Ec2.FindSnapshotId | chef/cookbooks/aws/libraries/ec2.rb:25-40 | The identifier of a newest (or oldest) snapshot of the volume, whatever order the sort gives equal times; the error exactly when there is none |
| Snapshots.AnswerIs | chef/cookbooks/aws/libraries/ec2.rb:25-40 | Such an answer in terms of the list alone |
| Snapshots.Ec2.Prune | chef/cookbooks/aws/providers/ebs_volume.rb:88-106 | Exactly min(keep, n) of the volume's snapshots are left, none older than a deleted one, everything else untouched and in order |
| Snapshots.PruneTouchesNoOther | chef/cookbooks/aws/providers/ebs_volume.rb:88-106 | The snapshots of any other volume are as before |
| Snapshots.AnswerKeptExactly | chef/cookbooks/aws/providers/ebs_volume.rb:98-105 | Keeping at least one, a prune never changes the most recent snapshot found if and only if none ties for newest |
| Snapshots.RotationKeepsLatest | chef/cookbooks/aws/providers/ebs_volume.rb:80-106 | Snapshot and prune round after round, whatever snapshots were there at the start: after each round the volume has exactly its latest keep snapshots |
| HealthReport.ActionReport | docker-build/rally/check_health.py:320-401 | The fields of the report for any results and configured times, and exactly when it divides by zero |
| HealthReport.TotalErrors | docker-build/rally/check_health.py:308-318 | The number of executions with errors, 1 for an empty list |
| HealthReport.Conservation | docker-build/rally/check_health.py:341-363 | Counted, failed and missing make up the results, and every failure has its details |
| HealthReport.ReportReads | docker-build/rally/check_health.py:341-401 | In terms of the raw results: which executions count as failed or missing, the details of each failure in order, the datum of each execution, and the success rate |
| HealthReport.MinIsReached | docker-build/rally/check_health.py:335-376 | The least duration is that of a counted execution unless all exceed the largest machine integer |
| HealthReport.ReportIsAnAccount | docker-build/rally/check_health.py:378-401 | With as many results as configured and one counted: min <= avg <= max, avg is the sum of the data over the number counted, totals and success rate agree |
| HealthReport.DividesByZeroExactly | docker-build/rally/check_health.py:378-387 | Given as many results as configured, the division by zero happens exactly when nothing was counted and something was missing |
| HealthReport.ErrorsAgree | docker-build/rally/check_health.py:308-350 | Without atomic actions the action's error count is the task's |

## Left out

- Keepalived.OneMaster: does not let nodes leave the role, because the guard on the state never reassigns one and a departed MASTER is not replaced.
- KeyShare.PasswordlessMesh: takes a line of authorized_keys as equal or not, where the provider matches the key as a regular expression before it appends it; the key is in the file either way.
- KeyShare.OneTriple: takes the searches as up to date and the members as fixed; what stale searches can do is said by KeyShare.TwoKeysExactly only.
- CollectdReader.CollidesExactly: says nothing of two trees with line breaks or many-word keys that print alike.
- TwoStores.WhoMayRunAhead: does not cover ports, subnets, router interfaces, renaming a security group and deletions that cascade to other resources than rules, because what the Neutron base classes and the Director do there is not part of this repository; nor does any other statement about whole runs in that module.
- TwoStores.Plugin.UpdateFloatingIp: which port the database chooses when the request has no port_id key is a parameter, because the base class decides it.
- Pools.AllocatePools: works on integers; the text form of addresses, and the address family netaddr guesses for small integers, are not part of this model.
- Journals.Host.MakePartition: assumes that parted makes the partition it is asked for and that the configured journal size is positive; a failing parted is only logged by the recipe. Partitions are numbered from 1 without gaps, where the source takes the number that parted reports. Rounding and units of parted's output are not part of this model.
- Snapshots.Ec2.Prune: the number of snapshots to keep is not negative, and every deletion succeeds.
- CollectdReader.PrinterRoundTrip: the reader takes a quoted text to end at the last quote of its line, so texts with quotes read back too; collectd's own parser is not part of this model.
- Keys of the options hash that are neither symbols nor strings, and Ruby characters outside ASCII in keys.
- The election variants for Ceph monitors (`mon_master`, and `node_election` in the Ceph library): smaller versions of the two that are modelled.
- The Crowbar branch of the OSD recipe and all shell commands behind the recipes.
- Choosing the state of a health report, and everything that sends it: plumbing around the numbers modelled here.
- RAID assembly from snapshots, logrotate, haproxy and apt helpers: they would only add easy members.
