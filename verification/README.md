# Verification of the telematics unit's self-contained parts

The repository is the C software of a vehicle telematics unit: a loader that upgrades and rolls back
the application, a store that keeps parameters across power failures, message framing, CAN signal
decoding, an AT command engine for the modem, and the ciphers, hashes and containers these use. This
project models the parts whose correctness is an argument rather than a formality and proves what they
are for. `dafny verify dfyconfig.toml` verifies all of it.

Every part has a reference that does not mention its code (a standard, a FIFO, a map, a trace, a
machine of single file operations), methods that follow the C code and are proved against that
reference, and theorems about the reference. Where code and reference share a definition (an S-box, an
initial value, an alphabet, an exclusive or), known answers of the standard or a statement in other
terms fix that definition.

| part of the unit | files |
|---|---|
| AES tables, key schedules, T-table rounds (FIPS 197) | GaloisField, Rijndael, Words, AesTables, Aes, AesCipher, AesBlock, AesSBox, AesAnswers |
| AES modes (NIST SP 800-38A) and padding (RFC 5652) | StreamModes, AesModes, AesCbc |
| Upgrade and rollback with crashes between any two file operations | Loader, LoaderSafety, LoaderPasses, LoaderLimits, LoaderMain |
| Reliable data store and parameter store | RdsRecord, Rds, RdsRuns, CfgPara |
| DCCP framing and the streaming decoder | Dccp, DccpChecksum, DccpSession, MsgParse, MsgRx, MsgTransfer |
| MD5 (RFC 1321) and SHA-1 (FIPS 180-4) | BlockChain, Md5Spec, Md5, Md5Answers, Sha1Spec, Sha1Transform, Sha1, Sha1Answers |
| CAN signal decoding | BitOps, CanDbc, CanExtract |
| AT command engine | AtTrace, AtQueue, AtEngine, AtCommands |
| Ring buffer, hash table, base64 | RingBuffer, HashTable, Base64 |
| Shared types and 32-bit arithmetic | Basics, WordArith |

Where the code does less than one might expect, the exact condition is proved:

- a frame survives every way of cutting the byte stream that the buffer can take exactly if it has at
  most size - 16 bytes (`DccpSession.FrameLimitExact`);
- SHA-1 writes the right length field exactly below 2^32 blocks (`Sha1.LengthFieldExact`);
- a parameter table that passes the size check fits its buffer exactly if the sum of its lengths did
  not wrap around 32 bits (`CfgPara.AcceptedFits`, `CfgPara.WrappedTableAccepted`);
- key 0 is found in a hash table whose bucket 0 was never used (`HashTable.Table.Search`,
  `HashTable.HashZero`);
- an upgrade pass saves a version in previous exactly if current held it when the pass began, so that a
  crash inside the overlay, after which a new pass begins, lets a torn image be saved and marked good
  (`LoaderLimits.SavedExactly`, `LoaderLimits.TornImageIsSaved`);
- a rollback keeps previous and restores it on every run, crashes included, exactly if no upgrade is
  marked good when it begins (`LoaderLimits.RollbackSafeExactly`,
  `LoaderLimits.RollbackCrossedByUpgrade`);
- corruption of one copy between the rename and the copy of an update leaves a readable copy, whatever
  the copy gets done, exactly if it hits the backup or removes the master altogether; a master that is
  damaged but still there takes the backup with it (`RdsRuns.CorruptionDuringUpdate`,
  `RdsRuns.UpdateHit`);
- `encode64` keeps within the length it is given exactly if the encoding and its terminating NUL fit
  (`Base64.StaysWithin`).

C integers: 32-bit words are a newtype with explicit wrap-around (`WordArith`), AES works on `bv8` and
`bv32`, CAN words are natural numbers with digit-wise operators (`BitOps`). Where the C code combines
fields that do not overlap with a bitwise or (bytes into a word, `msb |= t >> 29`, base64 groups), the
model adds them. Callbacks are returned logs, locks are atomic methods.

## Model

| member | source | states |
|---|---|---|
| GaloisField.Pow3Onto | mid/aes_e/aes_e.c:411-416 | Every non-zero element of GF(2^8) is a power of 3 below exponent 255, so the log table built by the loop is complete. |
| GaloisField.Pow3Period | mid/aes_e/aes_e.c:411-416 | The powers of 3 repeat after 255. |
| GaloisField.Order255 | mid/aes_e/aes_e.c:411-416 | No smaller positive power of 3 is 1, so the period is not shorter. |
| GaloisField.InverseUnique | mid/aes_e/aes_e.c:433-435 | Multiplicative inverses in GF(2^8) are unique. |
| Rijndael.SubByteInverse | mid/aes_e/aes_e.c:430-445 | The inverse S-box function undoes SubBytes on every byte and vice versa. |
| AesSBox.Row0 | mid/aes_e/aes_e.c:430-445 | Row 0 of figure 7 of FIPS 197; Row1 to RowF are the other fifteen, all 256 entries in all. |
| Rijndael.InvMixColumnInverts | mid/aes_e/aes_e.c:453-474 | InvMixColumns undoes MixColumns on every column. |
| Rijndael.EqInvCipherInverts | mid/aes_e/aes_e.c:785-835 | The equivalent inverse cipher with the transformed schedule undoes the Cipher, for every schedule of any length and every state (section 5.3.5 of FIPS 197). |
| Rijndael.EqInvCipherIsInvCipher | mid/aes_e/aes_e.c:785-835 | The equivalent inverse cipher and the straightforward inverse cipher are the same function. |
| AesTables.LogTableComplete | mid/aes_e/aes_e.c:411-416 | After 256 rounds of the loop the log table is right for every non-zero byte. |
| AesTables.InvSBoxComplete | mid/aes_e/aes_e.c:443-444 | Writing i at position FSb[i] for all i makes RSb the inverse permutation. |
| AesTables.ForwardEntry | mid/aes_e/aes_e.c:452-463 | The word assembled from y, z and x is the MixColumns image of the S-box value in row 0. |
| AesTables.ReverseEntry | mid/aes_e/aes_e.c:465-474 | The word assembled from the four products is the InvMixColumns image. |
| Aes.Tables.GenTables | mid/aes_e/aes_e.c:402-476 | From any contents, all tables end as FIPS 197 defines them: both S-boxes, round constants, the four forward and the four reverse tables. |
| Aes.Tables.GenSBoxes | mid/aes_e/aes_e.c:430-445 | FSb becomes SubBytes of every byte and RSb its inverse. |
| AesCipher.ForwardColumnMixes | mid/aes_e/aes_e.c:676-697 | Four table lookups xored with a key word are MixColumns of the shifted, substituted column plus the key column. |
| AesCipher.ReverseColumnMixes | mid/aes_e/aes_e.c:699-720 | The same for the inverse direction. |
| AesBlock.Context.SetKeyEnc | mid/aes_e/aes_e.c:497-604 | Accepts exactly 128, 192 and 256 bits; the round keys are KeyExpansion of the key (section 5.2 of FIPS 197). |
| AesBlock.Context.SetKeyDec | mid/aes_e/aes_e.c:611-673 | The round keys are those of the equivalent inverse cipher: reversed, with InvMixColumns on all but the first and last. |
| AesAnswers.Expansion128 | mid/aes_e/aes_e.c:534-553 | All 44 words of the expansion in appendix A.1 of FIPS 197. |
| AesAnswers.Expansion192 | mid/aes_e/aes_e.c:555-572 | All 52 words of appendix A.2. |
| AesAnswers.Expansion256 | mid/aes_e/aes_e.c:574-598 | All 60 words of appendix A.3. |
| AesBlock.ForwardRound | mid/aes_e/aes_e.c:676-697 | One AES_FROUND is one round of the Cipher on all four columns. |
| AesBlock.ReverseRound | mid/aes_e/aes_e.c:699-720 | One AES_RROUND is one round of the equivalent inverse cipher. |
| AesBlock.Encrypt | mid/aes_e/aes_e.c:726-778 | The output is the Cipher of section 5.1 of FIPS 197 under the context's round keys, for each number of rounds. |
| AesBlock.Decrypt | mid/aes_e/aes_e.c:785-835 | The output is the equivalent inverse cipher under the context's round keys. |
| AesAnswers.CipherExample | mid/aes_e/aes_e.c:726-778 | The cipher example of appendix B of FIPS 197, on states. |
| AesAnswers.BlockExample | mid/aes_e/aes_e.c:497-778 | The same example on the bytes of key and block, through the function that key schedule and encryption compute. |
| AesBlock.DecryptEncryptBlock | mid/aes_e/aes_e.c:726-835 | For every key of each size and every block, decryption undoes encryption. |
| AesBlock.EncryptThenDecrypt | mid/aes_e/aes_e.c:497-835 | The four entry points together give the block back, or report an unsupported key length. |
| StreamModes.EncryptedSplit | mid/aes_e/aes_e.c:962-1003 | CFB128 encryption gives the same output however the data is split over calls with carried offset and register. |
| StreamModes.DecryptedSplit | mid/aes_e/aes_e.c:962-1003 | The same for decryption. |
| StreamModes.CfbInverts | mid/aes_e/aes_e.c:962-1003 | CFB128 decryption from the same state undoes encryption for every length. |
| StreamModes.CfbByBlocks | mid/aes_e/aes_e.c:962-1003 | The byte-wise loop is CFB of section 6.3 of NIST SP 800-38A: each block is added to the encryption of the previous ciphertext block. |
| StreamModes.IncrementAddsOne | mid/aes_e/aes_e.c:1058-1060 | The carry loop adds one to the counter block read as a big-endian number, modulo 2^128. |
| StreamModes.CryptSplit | mid/aes_e/aes_e.c:1042-1071 | CTR gives the same output however the data is split over calls. |
| StreamModes.CryptInverts | mid/aes_e/aes_e.c:1042-1071 | CTR applied twice from the same state gives the data back. |
| StreamModes.CtrByBlocks | mid/aes_e/aes_e.c:1042-1071 | Block j is added to the encrypted counter block whose number is the first one plus j modulo 2^128 (section 6.5 of NIST SP 800-38A). |
| AesModes.CryptCfb128 | mid/aes_e/aes_e.c:962-1003 | The loops over `iv`, the offset and the output compute those functions and leave the state they define. |
| AesModes.IncrementInPlace | mid/aes_e/aes_e.c:1058-1060 | The loop with its early exit is the increment with carry. |
| AesModes.CryptCtr | mid/aes_e/aes_e.c:1042-1071 | Output, counter, stream block and offset are those of the CTR stream. |
| AesCbc.EncryptCbc | mid/aes_e/aes_e.c:875-955 | The output is CBC of the padded message (section 6.2 of NIST SP 800-38A), outlen its length and the rest of the buffer untouched; iv is left at the block before the last, since the padded block does not update it. |
| AesCbc.DecryptCbc | mid/aes_e/aes_e.c:875-955 | Lengths that are no multiple of 16 are refused; otherwise the output is CBC decryption, accepted exactly if well padded, and outlen excludes the padding; iv is left at the last input block, or alone if the length is refused. |
| AesCbc.AddPadding | mid/aes_e/padding.c:5-14 | The free bytes of the block are filled with their number. |
| AesCbc.GetPadding | mid/aes_e/padding.c:16-40 | Accepts exactly the inputs whose last byte k is between 1 and the length and whose last k bytes are all k. |
| AesCbc.CbcInverts | mid/aes_e/aes_e.c:875-955 | CBC decryption undoes CBC encryption over any inverse pair of block functions. |
| AesCbc.CbcByBlocks | mid/aes_e/aes_e.c:920-935 | Every ciphertext block is the encryption of the byte-wise sum of the plaintext block and the previous ciphertext block or the initial vector. |
| AesCbc.CbcPlaintextByBlocks | mid/aes_e/aes_e.c:891-913 | Every plaintext byte is the sum of the decrypted block and the previous ciphertext block. |
| AesCbc.RoundTrip | mid/aes_e/aes_e.c:875-955 | Every message of every length comes back with the right length. |
| AesCbc.AesInverse | mid/aes_e/aes_e.c:841-869 | AES under any key is such a pair. |
| Loader.CopyKeeps | appl/main.c:229-280 | After any operation of `appl_copy`, what is done equals the source; at its end the destination is the source, or untouched if the source was empty. |
| Loader.OverlapKeeps | appl/main.c:291-327 | The same for `appl_overlap`: it ends with the source laid over what was there. |
| LoaderSafety.RecoverableKept | appl/main.c:330-555 | Every operation of the loader and every crash keeps the invariant on which zones are marked good. |
| LoaderSafety.AlwaysRecoverable | appl/main.c:330-555 | In every run with any number of crashes, upgrades, failed starts and rollbacks, current is marked bad only while upgrade or previous is marked good, and the loader exits only with current good. |
| LoaderSafety.UpgradeSurvivesCrashes | appl/main.c:342-424 | With crashes at any operation of the upgrade or of removing its directory, current bad implies upgrade good, and the application starts only on the old image overlaid by the whole original upgrade. |
| LoaderPasses.InPassKept | appl/main.c:342-406 | Every operation of a pass keeps what has been saved and overlaid so far. |
| LoaderPasses.PassAlwaysHasWholeZone | appl/main.c:355-406 | Between any two operations of a pass begun with current good, current is untouched or previous is good and holds what current held. |
| LoaderPasses.PassResult | appl/main.c:355-406 | A completed pass leaves current overlaid by the upgrade and previous as current was, sub-directory by sub-directory. |
| LoaderPasses.RollbackSurvivesCrashes | appl/main.c:494-546 | A rollback never writes previous and, interrupted any number of times with no upgrade pending, ends with each non-empty sub-directory copied exactly. |
| LoaderLimits.BackupCompletes | appl/main.c:355-393 | From any disk the backup can run to completion with that result. |
| LoaderLimits.OverlayCompletes | appl/main.c:395-406 | From any disk the overlay can run to completion: current is marked good and holds its files overlaid by those of the upgrade. |
| LoaderLimits.SavedExactly | appl/main.c:355-406 | After a completed pass a version is in previous if and only if current held it when the pass began. |
| LoaderLimits.TornImageIsSaved | appl/main.c:355-406 | A run after which previous is marked good with an image that is neither the old nor the new one. |
| LoaderLimits.RollbackSafeExactly | appl/main.c:342-546 | On every run from the start of a rollback to the next start of the application, crashes included, previous stays as it was and a current marked good is the rolled-back one, if and only if no upgrade is marked good at that start. |
| LoaderLimits.RollbackCrossedByUpgrade | appl/main.c:342-546 | From every rollback of an image with an upgrade pending, one crash can end in a current zone marked good that holds the upgrade's files alone. |
| LoaderMain.Device.ApplCopy | appl/main.c:229-280 | The program's operations are steps of the machine and it ends with the copy, or nothing if the source is absent or empty. |
| LoaderMain.Device.FileCopy | mid/file/file.c:395-492 | A file is truncated and grows chunk by chunk; every intermediate state is a step of the machine. |
| LoaderMain.Device.RemoveAll | mid/dir/dir.c:212-296 | Files go one by one, the directory last. |
| LoaderMain.Device.ApplOverlap | appl/main.c:291-327 | Current becomes the old image overlaid by the upgrade, every operation a step of the machine. |
| LoaderMain.Device.Upgrade | appl/main.c:342-415 | Previous is marked good with everything current had, and current is marked good with the upgrade laid over it. |
| LoaderMain.Device.RemoveUpgradeZone | appl/main.c:417-424 | The upgrade zone ends without image and not good, whichever order its entries are removed in, and nothing else changes. |
| LoaderMain.Device.Rollback | appl/main.c:494-546 | Current becomes previous where that has files. |
| LoaderMain.Device.Start | appl/main.c:437-492 | A good current is started as it is, a bad one after a rollback, and the counter goes up by one. |
| LoaderMain.Device.PowerOn | appl/main.c:330-492 | From any recoverable disk the application starts with current good: on the old image overlaid by a pending upgrade with previous as current was, on the untouched current, or on a rollback; the counter goes up by one. |
| LoaderMain.Device.AppReturned | appl/main.c:459-554 | After a normal end or one of the first two failures only the counter changes; the third failure rolls current back, or ends the program with the disk untouched exactly if previous is not good; previous and upgrade never change. |
| RdsRecord.ReadRecord | mid/rds/rds.c:336-425 | A record reads back as the data and the version text it was written from, if the buffer holds the data. |
| RdsRecord.RecordLayout | mid/rds/rds.c:190-219 | Where version, length (least significant byte first), data and digest stand in the file. |
| RdsRecord.VersionTextIs | mid/rds/rds.c:418-422 | The version handed out is the field up to its first NUL, at most 31 bytes. |
| RdsRecord.VersionsDiffer | app/base/cfg/cfg_para.c:632-636 | Two version fields compare unequal exactly if they differ in a byte below 31 before which they agree and have not ended. |
| RdsRecord.AcceptsExactlyRecords | mid/rds/rds.c:336-425 | Reading yields a version text and data exactly from the files that are records of them. |
| RdsRecord.PrefixRejected | mid/rds/rds.c:350-383 | Every proper prefix of a record is rejected by the size checks alone. |
| Rds.Store.Write | mid/rds/rds.c:190-219 | Power failing or a write failing anywhere, the master is what it was or the whole new record. |
| Rds.Store.FileCopy | mid/file/file.c:395-492 | Power failing anywhere, the destination is what it was or a prefix of the source, which does not change. |
| Rds.Store.UpdateOnce | mid/rds/rds.c:275-324 | One readable copy remains at every point, whatever is readable is an old value or the new one, and success, certain without write errors and with power to the end, leaves both copies with the record of the new one. |
| Rds.Store.ReadFile | mid/rds/rds.c:336-425 | The branches of `rds_read`, including the digest over header and data, compute the reading function. |
| Rds.Store.Get | mid/rds/rds.c:437-491 | The master's value, else the backup's, else the backup's error; an unreadable master is repaired from the backup, which is never endangered. |
| RdsRuns.Run | mid/rds/rds.c:275-491 | Over any run of updates, reads, power failures at any operation and corruption of one copy, while both are readable or harmlessly in the middle of an update, one copy stays readable and every read returns the last completed value or one of a later interrupted update; every event has its entry, an update with power to the end and no write error is completed and leaves its record in both copies, and such a read leaves a readable master. |
| RdsRuns.CorruptionDuringUpdate | mid/rds/rds.c:300-314 | One of two readable copies is corrupted between rename and copy: every outcome of the copy leaves a readable one if and only if the master was not hit or is gone altogether. |
| RdsRuns.UpdateHit | mid/rds/rds.c:275-324 | An update with such a corruption in its middle keeps the store safe if it is harmless, at every loss of power. |
| CfgPara.SlotsDisjoint | app/base/cfg/cfg_para.c:110-139 | The slots follow each other without gap or overlap and end at the total. |
| CfgPara.AcceptedFits | app/base/cfg/cfg_para.c:141-146 | What the size check accepts fits into the buffer exactly if the 32-bit sum did not wrap. |
| CfgPara.WrappedTableAccepted | app/base/cfg/cfg_para.c:110-146 | A table of two strings that is accepted and does not fit. |
| CfgPara.MemberSizes | app/base/cfg/cfg_para.c:37-88 | A member is accepted exactly if it has as many bits as its C type, or is a string of at least two bytes. |
| CfgPara.Config.Init | app/base/cfg/cfg_para.c:96-149 | Accepts exactly the tables whose members are all right and whose wrapped total fits, and lays out the slots. |
| CfgPara.Config.Get | app/base/cfg/cfg_para.c:240-261 | The value of the item, exactly if the id exists and the buffer holds it. |
| CfgPara.Config.SetNow | app/base/cfg/cfg_para.c:271-290 | The item gets the value and every other item keeps its own. |
| CfgPara.Config.SetById | app/base/cfg/cfg_para.c:301-347 | The same, exactly for items of at most 512 bytes; silent, it does not touch the store; else a successful save leaves the whole buffer in both copies of the store. |
| CfgPara.Config.Restore | app/base/cfg/cfg_para.c:574-639 | The buffer becomes what the store hands out, or the defaults, which are then saved, exactly if nothing is readable; if the version that came with it is another one, the new item is set on top. |
| CfgPara.RestartUpgraded | app/base/cfg/cfg_para.c:574-639 | After a restart on a version whose field differs from the stored one before either has ended, the new item has its value and every other item its stored one. |
| CfgPara.SetThenRestart | app/base/cfg/cfg_para.c:301-639 | After a set whose save succeeded, a restart on the same version restores every item. |
| Dccp.UnescapeEscapeAll | mid/msg/msg_parse.c:89-126 | Removing the stuffing undoes the stuffing, whatever follows. |
| Dccp.ContentOfBody | mid/msg/msg_parse.c:138-162 | The body of every frame passes the check and yields its payload. |
| DccpChecksum.XorDigit | include/msg_parse.h:48-51 | A bit of the exclusive or is set exactly if it is set in one of the two bytes. |
| DccpChecksum.ChecksumDigit | include/msg_parse.h:38-54 | A bit of the checksum is set exactly if it is set in an odd number of bytes. |
| DccpChecksum.ChangedByte | include/msg_parse.h:38-54 | Changing any one byte changes the checksum. |
| DccpChecksum.DamageDetected | mid/msg/msg_parse.c:138-162 | A body that differs from a valid one in one byte, not counting the stuffing, is refused. |
| DccpChecksum.DamagedFrameRefused | mid/msg/msg_parse.c:138-162 | A frame in which one byte of payload or checksum was exchanged and stuffed is refused. |
| DccpChecksum.KnownFrames | mid/msg/msg_parse.c:20-75 | The frames of a plain byte, of the marker and of the escape byte, byte by byte. |
| Dccp.RunFrames | mid/msg/msg_parse.c:338-406 | A stream of frames is delivered exactly, in order. |
| Dccp.Resynchronise | mid/msg/msg_parse.c:338-406 | After any garbage at most the next frame is lost, exactly when the pending bytes pass the checksum by chance, and every later one is delivered. |
| DccpSession.ChunkingIrrelevant | mid/msg/msg_parse.c:338-406 | Within the limit of the buffer, the chunks do not matter: the result is that of the whole stream. |
| DccpSession.DeliveredExactlyOnce | mid/msg/msg_parse.c:338-406 | Frames of at most size - 16 bytes, in any chunks, are delivered exactly once, in order and unchanged. |
| DccpSession.FrameLimitExact | mid/msg/msg_parse.c:380-405 | A frame survives all ways of cutting it that fit the buffer exactly if it has at most size - 16 bytes. |
| DccpSession.DeliveredAfterGarbage | mid/msg/msg_parse.c:338-406 | Both together: any garbage prefix within the limit, any chunks. |
| MsgParse.Convert | mid/msg/msg_parse.c:20-75 | The output is the stuffed input, or an error exactly when there is no room. |
| MsgParse.MsgChecksum | include/msg_parse.h:38-54 | The loop is the checksum, and an empty buffer gives 0 whatever the initial value. |
| MsgParse.MsgEncode | mid/msg/msg_parse.c:190-247 | A segment's bytes, or an error when they do not fit. |
| MsgParse.SegmentsFormFrame | mid/msg/msg_parse.c:190-247 | However a payload is cut into first, middle and last segments with the checksum threaded through, the bytes sent are the frame of the whole payload. |
| MsgRx.Reverse | mid/msg/msg_parse.c:89-126 | Removing the stuffing in place overwrites nothing unread and yields the unstuffed bytes, or fails exactly on a bad escape. |
| MsgRx.Check | mid/msg/msg_parse.c:138-162 | Accepts exactly bodies that unstuff to a payload and its checksum. |
| MsgRx.Rx.Decodex | mid/msg/msg_parse.c:338-406 | The buffered, in-place decoder delivers and keeps exactly what the bufferless receiver does. |
| MsgRx.Rx.ReceiveAll | mid/msg/msg_parse.c:338-406 | Over any chunks that fit, it refines the session of the bufferless receiver. |
| MsgTransfer.EncodeMessage | mid/msg/msg_parse.c:190-247 | Calling the encoder for a first, any middle and a last segment with the checksum threaded through gives the frame of the payload, or fails exactly if that does not fit. |
| MsgTransfer.ReceiveStream | mid/msg/msg_parse.c:338-406 | A byte stream that stays within the limit, received in chunks as large as the buffer takes, is decoded like the whole stream. |
| MsgTransfer.Transfer | mid/msg/msg_parse.c:190-406 | End to end: messages encoded segment by segment and received chunk by chunk are delivered once each, in order and unchanged. |
| Md5.FourLines | mid/md5/md5.c:191-272 | Four lines with renamed registers are four steps of RFC 1321. |
| Md5.Transform | mid/md5/md5.c:180-278 | `Transform` is the compression function of section 3.4 of RFC 1321. |
| Md5.Context.Update | mid/md5/md5.c:97-136 | Whatever the piece, the two-word counter is 8 times the length modulo 2^64 and registers and buffer hold the whole message. |
| Md5.Context.Final | mid/md5/md5.c:138-176 | The digest is that of the whole message padded as in sections 3.1 to 3.5 of RFC 1321. |
| Md5.DigestOfPieces | mid/md5/md5.c:84-176 | The digest does not depend on how the message is split. |
| Md5Answers.DigestOfAbc | mid/md5/md5.c:84-278 | The digest of "abc" in appendix A.5 of RFC 1321, through all 64 steps. |
| Sha1Transform.F1IsCh | mid/sha/sha.c:72-72 | The macro F1 is the function Ch of FIPS 180-4. |
| Sha1Transform.F3IsMaj | mid/sha/sha.c:74-74 | The macro F3 is Maj. |
| Sha1Transform.M | mid/sha/sha.c:78-80 | The 16-word rolling schedule yields the words of the 80-word schedule. |
| Sha1Transform.FiveLines | mid/sha/sha.c:82-167 | Five lines with rotating register names are five steps. |
| Sha1Transform.Transform | mid/sha/sha.c:41-175 | `transform` is the computation of section 6.1.2 of FIPS 180-4. |
| Sha1.Context.Write | mid/sha/sha.c:181-207 | With the lazily flushed buffer, the context holds the whole message after any pieces. |
| Sha1.Context.BitCount | mid/sha/sha.c:224-236 | The two words are 8 times the length modulo 2^38 bytes. |
| Sha1.Context.Final | mid/sha/sha.c:217-274 | The buffer holds the digest of the message padded as in section 5.1.1, with the length modulo 2^38. |
| Sha1.DigestOfPieces | mid/sha/sha.c:26-274 | Any split of a message below 2^32 blocks gives its SHA-1 digest. |
| Sha1Answers.DigestOfAbc | mid/sha/sha.c:26-274 | The SHA-1 digest of "abc" that FIPS 180-4 gives as example, through all 80 steps. |
| Sha1.LengthFieldExact | mid/sha/sha.c:224-236 | The length field is the right one exactly below 2^32 blocks. |
| CanDbc.AcceptsWhatFits | app/base/can/can_dbc.c:247-270 | `dbc_sig_overflow` accepts a Motorola signal exactly when its shift is not negative and, for both orders, exactly when all its bits lie in the frame. |
| CanExtract.RevLoads | app/base/can/can_dbc.h:9-34 | REV64 of the loaded frame is the frame loaded backwards. |
| CanExtract.ExtractsSpelled | app/base/can/can_dbc.c:551-580 | For accepted signals below 64 bits, shifting, masking and extending yield the integer the signal's bits spell, in two's complement for sign '-'. |
| AtQueue.Queue.Enqueue | app/base/at/at_queue.c:93-112 | The command is appended exactly if fewer than nine are queued. |
| AtQueue.Queue.Dequeue | app/base/at/at_queue.c:123-142 | The oldest command leaves. |
| AtTrace.ResultBetweenSends | app/base/at/at_task.c:236-391 | Between two commands sent there is a result: at most one is outstanding. |
| AtTrace.OnlyOutstandingResent | app/base/at/at_task.c:305-353 | Only the command sent last, still without result, is retransmitted. |
| AtTrace.FirstInFirstOut | app/base/at/at_task.c:236-296 | Each queue is sent in acceptance order without loss or repeat since it was last cleared. |
| AtTrace.HighFirst | app/base/at/at_task.c:251-258 | A normal command goes out only when every high one accepted before has gone. |
| AtTrace.NothingDropped | app/base/at/at_task.c:268-272 | With commands below 100 characters none is dropped. |
| AtTrace.OperationalOnce | app/base/at/at_task.c:571-579 | The engine becomes operational at most once and never returns to its initial phase. |
| AtEngine.Engine.SendEnable | app/base/at/at_task.c:125-169 | A command is accepted exactly if it is not empty, the modem is on, the queue is not locked and not full. |
| AtEngine.Engine.OnSend | app/base/at/at_task.c:236-296 | When idle, the front command, high before normal, is sent or dropped, as an allowed step; phase and current command follow exactly. |
| AtEngine.Engine.OnRetry | app/base/at/at_task.c:305-353 | The outstanding command is sent again exactly while one is outstanding. |
| AtEngine.Engine.OnResult | app/base/at/at_task.c:362-391 | The result ends the outstanding command, the engine is idle in its phase, and the next command is sent at once. |
| AtEngine.Engine.OnInit | app/base/at/at_task.c:508-581 | The next due initial command is queued, exactly if the queue is open and not full, or the engine becomes operational exactly when none is left. |
| AtEngine.Engine.OnPoll | app/base/at/at_task.c:590-651 | Once operational, the next due command of the round is queued, exactly if the queue is open and not full. |
| AtEngine.Engine.Sleep | app/base/at/at_task.c:465-486 | Both queues are emptied, the closing commands that are not empty queued in order while there is room, if the modem is on, and the queues locked; when locked already, nothing happens. |
| AtCommands.TableTexts | app/base/at/at_task.c:31-84 | The texts of the initial and the polled commands. |
| AtCommands.PollNumbers | app/base/at/at_task.c:65-84 | The identifiers of the polled commands; FirstNumbers, SecondNumbers and LastNumbers give those of the initial ones. |
| AtCommands.InitialCommands | app/base/at/at_task.c:508-581 | The initial phase queues all 31 entries in order, or all but 20 to 25 with the hotspot off. |
| AtCommands.PollDueIs | app/base/at/at_task.c:605-616 | With the hotspot off the polled entries 8 to 12 are passed over, and no others. |
| RingBuffer.PowerTest | mid/ringbuffer/ring_buffer.c:28-32 | The macro holds exactly of powers of two. |
| RingBuffer.MaskedIndex | mid/ringbuffer/ring_buffer.c:88-172 | A masked free-running 32-bit index walks the cells in order even across its wrap. |
| RingBuffer.Ring.Init | mid/ringbuffer/ring_buffer.c:26-41 | Accepts exactly powers of two and starts empty. |
| RingBuffer.Ring.In | mid/ringbuffer/ring_buffer.c:154-172 | As many bytes as fit are appended. |
| RingBuffer.Ring.Out | mid/ringbuffer/ring_buffer.c:88-112 | The oldest bytes leave, and an emptied buffer resets its indices. |
| RingBuffer.Drive | mid/ringbuffer/ring_buffer.c:88-172 | Over any interleaving the bytes out, followed by those inside, are the bytes accepted, and never more than size are inside. |
| HashTable.ExtendedWellFormed | mid/hash/hashtable.c:77-121 | Insertion keeps the chains whole, ended and disjoint. |
| HashTable.ExtendedRepresents | mid/hash/hashtable.c:77-121 | The table then stores the map in which the first value of a key stays. |
| HashTable.Table.Init | mid/hash/hashtable.c:24-43 | -1 exactly without cells or for more than 2^30 of them; else every limit is accepted, all cells are empty, and the table is usable, storing the empty map, exactly for a limit from 1 to the size. |
| HashTable.Table.Insert | mid/hash/hashtable.c:65-123 | Each return code with its exact condition, among them that only cells before the last of a chain are compared and that -3 means bucket and overflow cells are all in use; success inserts; the count grows except on -1, and failure changes nothing else. |
| HashTable.Table.Search | mid/hash/hashtable.c:127-148 | It terminates with the value of the first successful insert of the key, else -1; key 0 is also found in a bucket never used. |
| HashTable.HashZero | mid/hash/hashtable.c:46-56 | Key 0 hashes to 0. |
| HashTable.HashOfOneKey | mid/hash/hashtable.c:46-56 | The hash of the key 0x12345678, step by step. |
| Base64.RoundTrip | mid/base64/base64.c:56-187 | Decoding an encoding gives the bytes back. |
| Base64.Alphabet | mid/base64/base64.c:45-54 | The letters are those of table 1 of RFC 4648. |
| Base64.TestVectors | mid/base64/base64.c:123-187 | The test vectors of section 10 of RFC 4648. |
| Base64.Encode64 | mid/base64/base64.c:123-187 | The buffer starts with the letters of the bytes without leading zeros, as far as there is room, the whole padding and NUL, and is unchanged behind. |
| Base64.StaysWithin | mid/base64/base64.c:163-185 | What is written, NUL included, keeps within the given length if and only if the whole encoding and its NUL fit; otherwise it exceeds it by at most three characters. |
| Base64.Decode64 | mid/base64/base64.c:56-121 | Succeeds exactly if all characters before '=' are letters and the bytes fit; never writes past the given length. |
| Base64.EncodeThenDecode | mid/base64/base64.c:56-187 | With room for the letters, decoding the encoded buffer gives the input without its leading zero bytes, or fails exactly if these do not fit. |

## Left out

- The AES modes are compiled out by the configuration of the repository; they are modelled as written, over any block function. CFB8 and the hardware paths of the block cipher are left out.
- AesCbc.DecryptCbc: requires a non-empty input, because for length 0 the source reads the byte before its buffer.
- AesCbc.GetPadding: requires a non-empty input for the same reason.
- AesModes and AesCbc keep the bad-padding flag and the input buffers as values; outputs, `iv` and counter are arrays.
- Loader: directories are flattened to maps from names to contents, status writes are taken to succeed, error returns of copies are left out, and what the application does while it runs is arbitrary on current's configuration and data and on the upgrade zone.
- Loader: the mirror of current in /usrdata/current (`dir_copy`) is not modelled, because removal there precedes the bad mark; the branch that restores from it is proved unreachable.
- LoaderMain.Device.Start: requires current or previous good, which every run keeps, so the restore from /usrdata/current is not part of the program.
- Rds: the entry table and the second area of one entry are left out; read errors of the device are not modelled; files are below 2^31 bytes.
- Rds.Store.UpdateOnce: requires data that fits a C int together with header and digest, because file sizes are read back as C ints.
- RdsRuns.Run: starts from a store in which one update has completed, because before that there is no value to return.
- CfgPara: notification callbacks are left out; the defaults, the item a new version adds and the contents of the version array when nothing was read are parameters.
- CfgPara.Config.Restore: requires stored values of the size of the buffer, which is all that `cfg_save_para` stores.
- Dccp: `msg_decode` is not part of this model, because its overflow test uses the size of a pointer.
- CanDbc: scaling in floating point, the match table, the text format and signals of 64 bits, where the mask shift is undefined, are left out.
- AtEngine: timers are events that may come at any time; parsing of results, the counters behind the fault flags and the restart request, and the building of command texts are left out.
- RingBuffer: `rb_get` mixes a masked and a free-running index and is left out; counts are returned as natural numbers where the source converts to int.
- HashTable: removal is left out, because it does not unlink cells and search ignores the used flag.
- HashTable.Table.Search: requires a limit from 1 to the size, because the source divides by the limit and indexes the cells with the remainder.
- Base64.Encode64: requires a buffer that holds what is written, because the source checks letters but not the padding and the NUL against the length.
- Collision resistance of the hashes: corruption is content that the digest rejects.
