# Verified models of the pageant+ cryptographic core

The program is an SSH agent built on PuTTY's code. This project models the parts of that code whose correctness is
hardest to see: the bignum engine, the public-key operations that stand on it, the block ciphers and hashes, and three
small stateful pieces (the CRC compensation detector, the debugging page allocator, the OpenSSH private key format).
Nothing was executed; every statement below is a Dafny proof. `dafny verify dfyconfig.toml` checks them all.

## How the code appears here

* **Words and memory.** A bignum word has `W` bits, and `W` is 16, 32 or 64 but otherwise unknown, so every result holds
  for each word size of `sshbn.h`. The C pointers of one computation are offsets into one array, so that aliasing and
  scratch space are as in C: `V(mem, at, len)` is the number in `len` words from `at` on, most significant first, and
  `OnlyChanged` says which words a call may touch. A `Bignum` is an array that starts with its word count, least
  significant word first, and `BnVal` is its value. Word operations are the macros of `sshbn.h`, wrapping at 2^W.
* **Loops and state.** What the source changes in place (word arrays, blocks, chaining values, hash tables, cursors,
  page tags, output buffers) is changed in place here, by the same loops. Each method is tied to a mathematical
  statement or to a specification function about which the main results are then proved as lemmas.
* **Residues.** Above the bignum engine, in `sshecc.c` and `sshdss.c`, a number is a `nat` and each bignum call a function
  whose contract is what the engine is proved to deliver: for `modpow` that includes the words which it never sets, so
  that `Dss.ModPow` takes the number they hold as an argument. `modinv` asserts that its number is not zero, and
  `EcField.ModInverse` requires it, so every caller is proved to keep to that but one: `ecp_normalise` at infinity on a
  Montgomery curve, where the model stops (`Stopped`), or, with assertions compiled out, returns NULL. `Is(r, x, p)` says that r is the reduced residue of the
  integer x, `Cong(x, y, p)` that x and y are congruent.
* **Parameters.** The hash compression functions, the key derivation function, the round functions of DES and Blowfish,
  SHA-1 and SHA-512 are parameters, about which only what is stated is assumed. The ten tables of AES and the table of
  CRC-32 are there, literal by literal.

## What the proofs found

* **`reciprocal_word`** promises recip * (d+1) <= 2^(2W-1). That is not to be seen from its loops, which step `recip` by one
  but the tracked product by d, not d+1 (sshbn.c:615-636): it depends on where the Newton estimate r0 falls, which is
  less than seven short. `UnderestimateIff` gives the exact condition on d, and `OverestimateFamily` shows that where it
  fails d+1 divides 2^(2W-1) + t with t from 1 to 5 while r0 is t or more short. No d of 16, 32 or 64 bits is like that
  (`Underestimates`): the large factors of the fifteen numbers are proved prime in `PrimeCertificates`, and for every pair of
  W-bit factors that is left the estimate is closer. So the promise holds for every d, and division, modular powers and
  inverses need no assumption about it.
* **`modpow` with exponent zero and an odd modulus** reads the upper half of an array that was never set
  (sshbn.c:1127-1130). If the left-over words hold h, the result is h + 1, less the modulus once if that fits; with h = 1
  it is 2 (`ZeroExponentWrong`). For a modulus above 1 the function can be relied on, whatever memory held before,
  exactly when the exponent is positive or the modulus even (`ReliableIff`). `modpow_simple` with exponent zero gives 1,
  even for modulus 1; `BothPowers` says when the two functions agree.
* **DSA verification** calls `modpow` with u1 and u2 as exponents, and p is odd. A signature that `dss_sign` computed is
  accepted whatever the unset words hold if and only if s is not zero, r is not zero and the hash is not a multiple of q
  (`AlwaysAcceptedIff`); `RejectedExample` is one that a left-over 1 makes fail. `dss_sign` checks none of this, and
  `dss_verifysig` does not ask r and s to be below q.
* **`detect_attack`** on at most seven blocks ends its scan at the first harmless match with the IV (sshcrcda.c:130-135).
  That misses nothing: the checksum of a block's pattern is zero exactly when the CRC of the pattern, taken one bit at a
  time, is (`CompensatesIff`), and for up to 32 positions only the empty pattern has that (`ShortPattern`). So
  `detect_attack` decides the attack condition for every packet and IV, there are attacks of n blocks if and only if n is
  at least 32 (`AttackLengths`), and the scan for small packets never finds any. The 256 literals of the CRC table are
  proved to be what the shift register makes of their indices (`TableRight`).
* **The page allocator** gives a request of size zero a page but no unused page behind it, so the search can put it directly
  in front of a live region. That region has lost the unused page before it, which it otherwise keeps (`GuardBefore`), and
  freeing the empty one frees the other with it: free releases exactly the region it is given if and only if that is not
  empty or no region starts on its next page (`AloneIff`). `FreedWithNeighbour` is such a run, in
  an arena of six pages. A run of unused pages that lies on both sides of `minefield_curpos` is never found
  (`FreedButNotFound`).
* **ECDSA.** `_ecdsa_sign` never checks for zero; verification accepts what it emits exactly when r and s are not zero.
  `_ecdsa_verify` reads the coordinates of the point u1 G + u2 Q without asking whether it is the point at infinity,
  which has none. For r and s in range and the public key of x that happens if and only if z + r x is zero modulo n
  (`InfinityIff`): never for a computed signature with s not zero (`SignedFinite`), but for every message and key that are
  not zero modulo n there is an r in range with which it happens for every s (`InfinityReached`).
* **The tables of AES.** Every literal is right: Sbox is the affine map of FIPS 197 on inverses in its field, Sboxinv undoes it,
  and E0 to E3 and D0 to D3 are the columns of the two matrices over them (`TablesRight`). The field is pinned down apart
  from the code, as polynomials modulo X^8 + X^4 + X^3 + X + 1 (`FieldLaw`), and the example vector of appendix C.1 is
  proved to come out of `aes_setup` and the table-driven rounds (`AesVectors.Vector`).
* **Signing is deterministic**, as the long comment above `dss_gen_k` intends. The chain of hashes that makes the nonce is
  modelled over an arbitrary SHA-512: private key and digest determine the nonce (`NonceUnique`), and with it the
  signature (`SignedUnique`). The key can be read off the bytes that are hashed (`MpintValue`).
* **`ecp_mulm`** treats the scalar 0 as 1. For a base point with x = 0, which is (0, 0) and of order two, its addition always
  yields Z = 0 and from n = 2 on nothing comes out; so it is right if and only if x is not zero, or n is at most 1, or n
  is even (`MulM`). On every curve three times (0, 0) is (0, 0), and the ladder does not say so (`ThriceZero`). At
  infinity it does not return NULL, as its last lines intend, but stops in the assertion of `modinv`, unless assertions
  are compiled out.
* **The OpenSSH reader** ignores whatever follows the private section, and cuts key types and comments at their first zero
  byte.
* **Comments.** The comment above `internal_add` speaks of a difference, but the code adds. DES's five bit exchanges do
  what the comment's 64-entry table says (`IPTable`).

## Model

| member | source | states |
|---|---|---|
| AddSub.InternalAdd | sshbn.c:97-107 | c and the carry together are a + b, for operands that are disjoint from c or the same array; nothing else changes |
| AddSub.InternalSub | sshbn.c:114-122 | c is a - b modulo B^len, exactly one B^len added when b is larger; nothing else changes |
| Karatsuba.MulComputeScratch | sshbn.c:134-144 | the loop computes the scratch need that the recursion of internal_mul obeys |
| Karatsuba.MulSchoolbook | sshbn.c:325-343 | the quadratic branch: c holds the double-length product |
| Karatsuba.Ripple | sshbn.c:302-316 | adding a carry into words that have room for it never runs off the top |
| Karatsuba.InternalMul | sshbn.c:145-345 | for every length, odd or even, c = a * b, and through all recursion only c and mul_compute_scratch(len) words of scratch change |
| MulLow.InternalMulLow | sshbn.c:352-442 | c is the product modulo B^len, and no more scratch is touched than internal_mul may use |
| Montgomery.MontyReduce | sshbn.c:458-503 | for every x of 2 len words, t = (x + m*n) / r with m below r, less n once if it fits: x' * r is congruent to x modulo n, and x' is below n when x < r*n |
| Montgomery.MontyExact | sshbn.c:458-503 | why: m = x * mninv mod r makes x + m*n divisible by r |
| Bignum.InternalAddShifted | sshbn.c:505-529 | n * 2^shift is added to a Bignum with room for the sum, and the range assertions hold |
| Reciprocal.BnClz | sshbn.c:531-550 | the binary search over halving shifts finds the number of leading zero bits |
| Reciprocal.NewtonStep | sshbn.c:578-607 | the half-word seed and the word-level Newton step compute the integer estimate exactly; the only wrap-around is the two-word negation |
| Reciprocal.NewtonBracket | sshbn.c:578-607 | for every d with its top bit set, r0 * (d+1) <= 2^(2W-1) < (r0+7) * (d+1) |
| Reciprocal.ReciprocalWord | sshbn.c:552-639 | both correction loops end, with recip*d + r0 < 2^(2W-1) <= (recip+1)*d + r0 |
| Reciprocal.FewCorrections | sshbn.c:615-636 | recip ends at most one below and seven above the estimate |
| Reciprocal.UnderestimateIff | sshbn.c:562-566 | the documented recip * (d+1) <= 2^(2W-1) holds if and only if an arithmetic condition on d does |
| Reciprocal.OverestimateFamily | sshbn.c:562-566 | where it fails, d+1 divides 2^(2W-1) + t for a t from 1 to 5, and the Newton estimate is at least t short |
| Primality.ResidualByRoot | sshbn.c:562-566 | if b^r = 1 modulo n, b - 1 has an inverse and r is prime, every divisor of n is 1 modulo r |
| Primality.PrimeByDigits | sshbn.c:562-566 | a number whose divisors are all 1 modulo f is prime, if its digits in base f are not those of a product |
| ReciprocalBound.Small32 | sshbn.c:552-639 | with 32-bit words, no two factors in range of 2^63 + t leave the Newton estimate t short |
| ReciprocalBound.Underestimates | sshbn.c:562-566 | recip * (d+1) <= 2^(2W-1), as the comments promise, for every d with its top bit set and all three word sizes |
| ReciprocalBound.AlwaysAdmissible | sshbn.c:655-700 | so the reciprocal of the top bits of any modulus meets what internal_mod relies on |
| DivisionMath.QuotientSafe | sshbn.c:724-755 | a quotient word taken from the top words and an admissible reciprocal never overshoots, once moved to its place |
| DivisionMath.QuotientExhausted | sshbn.c:760-777 | when the quotient word is shifted away to nothing, what is left is below 2m |
| Division.TopBits | sshbn.c:706-710 | the first nonzero word and the bits below it give the top W bits of the number, and how far they were shifted |
| Division.PickQuotient | sshbn.c:706-777 | the multiple of m picked at each step is positive and not larger than what is left, or what is left is below 2m |
| ModSubtract.SubtractAligned | sshbn.c:791-808 | the subtraction loop for whole-word offsets takes off exactly q*m at that offset, with its running borrow |
| ModSubtract.SubtractUnaligned | sshbn.c:809-833 | the same for offsets inside a word, where products are shifted as they are formed |
| Division.ApplyQuotient | sshbn.c:779-833 | a loses exactly (q * m) << offset |
| Division.AtLeastModulus | sshbn.c:885-904 | the word-by-word comparison decides a >= m |
| Division.SubtractModulus | sshbn.c:914-921 | the fix-up leaves exactly a - m |
| Division.InternalMod | sshbn.c:655-940 | the loop terminates, a ends as a0 mod m, and the quotient grows by exactly a0 div m |
| BigDiv.BigDivMod | sshbn.c:1337-1397 | result = p mod m and quotient += p div m, for whichever is wanted, with 0 <= remainder < m, for every modulus whose top word is not zero |
| BigDiv.BigMod | sshbn.c:1980-1987 | a mod b, exactly |
| BigDiv.BigDiv | sshbn.c:1968-1975 | a div b, exactly |
| BigMul.BigMulAdd | sshbn.c:1727-1777 | a * b + addend, trimmed, for operands of any lengths |
| BigMul.BigAdd | sshbn.c:1790-1812 | a + b, trimmed |
| BigMul.BnCmp | sshbn.c:1629-1654 | the sign of the result is the order of the two values |
| ModularPower.ModMul | sshbn.c:1209-1299 | p * q modulo m, reduced |
| ModularPower.ModPowSimple | sshbn.c:945-1056 | base^exp modulo m, reduced unless the exponent is zero, when it is 1 |
| MontgomeryPower.MontSetup | sshbn.c:1081-1105 | the inverse of an odd modulus modulo r exists, as asserted, and base and 1 are brought into Montgomery form |
| MontgomeryPower.ModPow | sshbn.c:1062-1202 | for every base, exponent and modulus, and whatever the unset words hold, the number PowerOf: base^exp modulo m, but for exponent zero with an odd modulus the number that the unset words give |
| MontgomeryPower.PowerRight | sshbn.c:1062-1202 | that number is base^exp mod m for every positive exponent, and for every even modulus |
| MontgomeryPower.ZeroExponentIff | sshbn.c:1127-1130 | exponent zero with an odd modulus gives 1 if and only if the unset words hold zero or the modulus |
| MontgomeryPower.ZeroExponentWrong | sshbn.c:1127-1130 | unset words that hold 1 make it 2 |
| MontgomeryPower.ReliableIff | sshbn.c:1062-1202 | for a modulus above 1, modpow is right whatever the unset words hold if and only if the exponent is positive or the modulus even |
| MontgomeryPower.BothPowers | sshbn.c:945-1202 | run on the same input, modpow and modpow_simple return the same number if and only if the exponent is positive, the modulus even, or the unset words happen to give 1 |
| NumberTheory.InverseMeansCoprime | sshbn.c:2028-2037 | an inverse exists only for coprime numbers, so returning NULL is right |
| ModularInverse.BezoutStep | sshbn.c:2040-2053 | one Euclidean step keeps a*x + b*xp = modulus and b congruent to sign*x*number without negative numbers |
| ModularInverse.EuclidStep | sshbn.c:2040-2055 | the step on Bignums keeps these invariants and the sizes, and the remainder shrinks |
| ModularInverse.BorrowStep | sshbn.c:2073-2075 | the comparisons with the complemented word detect the borrow exactly |
| ModularInverse.Negate | sshbn.c:2063-2082 | the hand-written subtraction yields modulus - x |
| ModularInverse.Euclid | sshbn.c:2025-2086 | NULL if and only if gcd(number, modulus) is not 1, zero included; otherwise the inverse, below the modulus |
| ModularInverse.ZeroIff | sshbn.c:2021-2022 | the assertion fails if and only if the number is zero, with a word or without |
| ModularInverse.ModInv | sshbn.c:2014-2086 | stops in the assertion for zero where assertions are compiled in; otherwise as above |
| Decimal.BitCount | sshbn.c:1544-1550 | the number of bits: 2^(n-1) <= value < 2^n |
| Decimal.LogarithmEstimate | sshbn.c:2100-2108 | 2^93 < 10^28 |
| Decimal.DigitsSuffice | sshbn.c:2100-2121 | a number of i bits has at most ceil(28 i / 93) decimal digits |
| Decimal.TenStep | sshbn.c:2154-2166 | division of (carry, word) by ten in pieces: no intermediate overflows, quotient and remainder are exact |
| Decimal.DivideByTen | sshbn.c:2139-2172 | the workspace is divided by ten in place, and the zero test is right |
| Decimal.BignumDecimal | sshbn.c:2092-2187 | the string is the decimal form of the value, and the buffer is never underrun |
| Decimal.DecimalValue | sshbn.c:1454-1477 | reading a decimal form gives back the number, for every number |
| Decimal.FirstDigit | sshbn.c:1454-1477 | the first digit is the most significant one |
| Decimal.NoZeroInFront | sshbn.c:2139-2176 | no zero in front but for zero itself |
| Decimal.BignumFromDecimal | sshbn.c:1454-1477 | the value of the digits, or NULL if and only if some character is not a digit |
| EcField.Add | sshecc.c:442-458 | the residue of the sum |
| EcField.Square | sshecc.c:460-463 | the residue of the square |
| EcField.Treble | sshecc.c:465-486 | repeated subtraction leaves the residue of three times the element |
| EcField.Double | sshecc.c:488-502 | one subtraction is enough for twice the element |
| EcField.Subtract | sshbn.c:1301-1328 | the residue of the difference, whether or not the arguments are reduced |
| EcField.ModInverse | sshbn.c:2014-2086 | for a number that is not zero, as the code asserts, an inverse if and only if there is one |
| EcField.InverseUnique | sshbn.c:2014-2086 | the reduced inverse is unique |
| Weierstrass.DoubleOnCurve | sshecc.c:690-806 | the tangent rule stays on the curve |
| Weierstrass.AddOnCurve | sshecc.c:898-1023 | the chord rule stays on the curve |
| Weierstrass.SumOnLine | sshecc.c:898-1023 | a sum of two points with different x is the reflection of the third point of the curve on their line |
| Weierstrass.DoubleOnLine | sshecc.c:690-806 | a double with y not zero is the reflection of the other point on the tangent |
| Weierstrass.InfinityIff | sshecc.c:936-954 | a sum is infinite if and only if one point is the negative of the other |
| Weierstrass.AddCommutes | sshecc.c:898-1023 | addition commutes |
| Weierstrass.EcPoint.TangentSlope | sshecc.c:714-757 | both forms of M, for a = -3 and in general, are the tangent slope scaled by 2 y z^4 |
| Weierstrass.EcPoint.DoubleW | sshecc.c:690-806 | Jacobian doubling represents the tangent point of section 2.2.1 of SEC 1, infinite for y = 0 |
| Weierstrass.Chord | sshecc.c:956-1001 | from the rescaled coordinates, the Jacobian coordinates of the chord point |
| Weierstrass.EcPoint.AddW | sshecc.c:898-1023 | Jacobian addition represents the affine sum, with equal and opposite points handled |
| Weierstrass.EcPoint.AddPoint | sshecc.c:1141-1164 | addition with the point at infinity on either side |
| Weierstrass.EcPoint.Normalise | sshecc.c:604-656 | dividing out Z never fails, keeps the point, and leaves its affine coordinates |
| ScalarMul.AMinus3 | sshecc.c:422-436 | recognises a = -3 modulo p exactly |
| ScalarMul.TimesAdd | sshecc.c:1166-1193 | multiples add: (m+n)A = mA + nA |
| ScalarMul.TimesTimes | sshecc.c:1166-1193 | multiples of multiples: (mn)A = m(nA) |
| ScalarMul.Mul_ | sshecc.c:1166-1193 | low bit first, the result is the b-fold sum for every b |
| ScalarMul.MulW | sshecc.c:1195-1205 | the same, in affine coordinates |
| ScalarMul.SumMul | sshecc.c:1293-1324 | aG + bP in affine coordinates |
| EdwardsCurve.SumLaw | sshecc.c:1076-1139 | x3 (1 + d x1 x2 y1 y2) = x1 y2 + x2 y1 and y3 (1 - d x1 x2 y1 y2) = y1 y2 + x1 x2 |
| EdwardsCurve.ClearedEquation | sshecc.c:1076-1139 | the curve equation of the sum, cleared of denominators, follows from those of the points |
| EdwardsCurve.SumOnCurve | sshecc.c:1076-1139 | the sum of two points is a point |
| EdwardsCurve.AddE | sshecc.c:1076-1139 | the field operations compute the twisted Edwards sum, both inverses existing |
| EdwardsCurve.AddPoint | sshecc.c:1141-1164 | addition with the mark of infinity on either side |
| EdwardsCurve.MulE | sshecc.c:1207-1230 | high bit first from infinity, the result is the b-fold sum for every b |
| MontgomeryCurve.SumOnCurve | sshecc.c:1025-1074 | chord and tangent stay on the curve |
| MontgomeryCurve.SumOnLine | sshecc.c:1025-1074 | a sum of two points with different x is the reflection of the third point of the curve on their line |
| MontgomeryCurve.DoubleOnLine | sshecc.c:808-869 | a double with y not zero is the reflection of the other point on the tangent |
| MontgomeryCurve.SumTimesDifference | sshecc.c:1025-1074 | x(P+Q) x(P-Q) (x1-x2)^2 = (x1 x2 - 1)^2, the identity behind x-only addition |
| MontgomeryCurve.DoubleXZ | sshecc.c:808-869 | the residues of the doubling formulas |
| MontgomeryCurve.DoubleRepresents | sshecc.c:808-869 | these represent 2P, infinity included |
| MontgomeryCurve.AddXZ | sshecc.c:1025-1074 | the residues of the differential addition formulas |
| MontgomeryCurve.AddRepresents | sshecc.c:1025-1074 | these represent P + Q when Q - P is the base point, unless its x is zero, when Z comes out as zero |
| MontgomeryCurve.ZeroBase | sshecc.c:1025-1074 | with base x = 0 the sum always has Z = 0 |
| MontgomeryCurve.Normalise | sshecc.c:657-681 | X / Z; for Z = 0 the assertion of modinv stops it, or NULL comes back where there are no assertions |
| MontgomeryCurve.NormalisedIs | sshecc.c:657-681 | where X and Z represent a point, that is its x coordinate, and Z = 0 means infinity |
| MontgomeryCurve.Step | sshecc.c:1243-1269 | a rung, as residues: the sum of the two pairs, and the double of the one that the bit selects |
| MontgomeryCurve.StepRungs | sshecc.c:1243-1269 | from (kP, (k+1)P) to (2kP, (2k+1)P) or ((2k+1)P, (2k+2)P), for base x not zero |
| MontgomeryCurve.StepZero | sshecc.c:1243-1269 | for base x = 0 both pairs lose their Z with the first rung and never regain it |
| MontgomeryCurve.ZeroMultiples | sshecc.c:1232-1279 | the multiples of a point with x = 0 are itself and infinity in turn |
| MontgomeryCurve.MulM | sshecc.c:1232-1279 | for every base point and n: the x coordinate of the n-fold sum if x is not zero, nothing from n = 2 on if it is; right if and only if x is not zero, or n is at most 1, or n is even; n = 0 counts as 1 |
| MontgomeryCurve.ThriceZero | sshecc.c:1232-1279 | a wrong answer on every curve: three times (0, 0) is (0, 0), and the ladder comes to nothing |
| Ecdsa.BaseFinite | sshecc.c:1522-1589 | no multiple of the base point below its prime order is infinite |
| Ecdsa.Leading | sshecc.c:1467-1476 | all of the digest where it has no more bits than n; else its topmost bits, the quotient by the power of two that leaves as many as n has |
| Ecdsa.LeadingFits | sshecc.c:1467-1476 | the number taken from the digest has no more bits than n |
| Ecdsa.Sign | sshecc.c:1522-1589 | r is the x coordinate of kG mod n, and k s = z + r priv modulo n, where k is the nonce for the private key and the digest |
| Ecdsa.SignedUnique | sshecc.c:1522-1589 | private key and data determine the signature |
| Ecdsa.Verify | sshecc.c:1451-1520 | accepted if and only if r and s are in range and x(u1 G + u2 Q) mod n = r; none where that point is infinite, which for the public key of x is where z + r x = 0 modulo n; and with k s = z + r x, accepted if and only if the x coordinate of kG is r modulo n |
| Ecdsa.CheckedIs | sshecc.c:1489-1516 | for the public key of x, u1 G + u2 Q is kG for any k with k s = z + r x modulo n, however r and s were made |
| Ecdsa.InfinityIff | sshecc.c:1489-1516 | for r and s in range and the public key of x, u1 G + u2 Q is infinite if and only if z + r x = 0 modulo n |
| Ecdsa.InfinityReached | sshecc.c:1489-1516 | for message and key not zero modulo n there is an r in range that leads to infinity whatever s is |
| Ecdsa.SignedFinite | sshecc.c:1451-1589 | no computed signature with s not zero leads to infinity |
| Ecdsa.SignedAccepted | sshecc.c:1451-1520 | the point of the verification is the kG of the signature |
| Ecdsa.SignThenVerify | sshecc.c:1451-1589 | verification accepts a computed signature if and only if r and s are not zero |
| DssNonce.HashMpint | sshdss.c:26-38 | the length and the bytes from the top down are absorbed |
| DssNonce.MpintValue | sshdss.c:26-38 | the number can be read off what is absorbed |
| DssNonce.MpintIsString | sshdss.c:26-38 | an mpint of section 5 of RFC 4251: its length, no sign bit, no zero byte in front without need |
| DssNonce.AbsorbedDetermines | sshdss.c:577-604 | what is hashed for a candidate tells the digest and the number of letters |
| DssNonce.GenK | sshdss.c:563-607 | k is SHA-512(SHA-512(id, 0, x), digest, i letters x) modulo q for the first i that makes it neither 0 nor 1 |
| DssNonce.NonceUnique | sshdss.c:563-607 | private key and digest determine the nonce, which is between 2 and q-1 |
| Dss.SignedUnique | sshdss.c:609-662 | key and digest determine the signature: signing is deterministic, as its comments promise |
| Dss.WriteBlob | sshdss.c:640-656 | byte 19-i of r and s at place i makes the big-endian signature blob |
| Dss.BlobParses | sshdss.c:40-84 | reading the blob gives back r and s |
| Dss.ParseBlobIff | sshdss.c:201-245 | exactly the signatures that are read: 40 bare bytes, or name, four bytes that are not looked at, 40 bytes and anything after |
| Dss.ModPowIs | sshdss.c:275-276 | modpow gives the power if and only if the exponent is positive, the modulus even, or the unset words are zero modulo it |
| Dss.Verify | sshdss.c:194-300 | accepted if and only if the signature parses, s is not zero and has an inverse modulo q, and g^u1 y^u2 mod p mod q = r, the two powers as modpow gives them; where these are powers, if and only if FIPS 186-4 accepts |
| Dss.ValidIff | sshdss.c:250-286 | where both calls of modpow give powers: some w below q has s w mod q = 1 and (g^(h w mod q) y^(r w mod q)) mod p mod q = r |
| Dss.AcceptableMeans | sshdss.c:250-286 | for any k with k s = h + x r modulo q, however r and s were made, that holds if and only if g^k mod p mod q = r |
| Dss.ForgedRejected | sshdss.c:250-286 | a pair with hash and r not zero modulo q that is rejected |
| Dss.Sign | sshdss.c:609-662 | the bytes are the blob of r = g^k mod p mod q and s with k s = hash + x r modulo q, where k is the nonce for the key and the digest |
| Dss.ExponentsAgree | sshdss.c:260-272 | u1 + x u2 is congruent to k |
| Dss.EquationHolds | sshdss.c:250-286 | with both powers right, the verification equation holds for every computed pair |
| Dss.SignedValid | sshdss.c:194-300 | a computed pair with s not zero is valid when each of hash and r is nonzero modulo q or its modpow call is right |
| Dss.ZeroHashFails | sshdss.c:275-276 | a computed pair for a hash that is a multiple of q fails when p - 1 is left over |
| Dss.ZeroRFails | sshdss.c:275-276 | a computed pair with r = 0 fails for some left-over number |
| Dss.AlwaysAcceptedIff | sshdss.c:194-300 | a computed pair is valid whatever is left over if and only if s is not zero and p is even or neither r nor the hash is a multiple of q |
| Dss.RejectedExample | sshdss.c:275-276 | a key, a nonce and a hash of 0 whose computed pair is rejected with 1 left over |
| Dss.SignThenVerify | sshdss.c:194-300 | dss_verifysig on what dss_sign emits: accepted under that condition whatever is left over, rejected when s is zero, and otherwise decided by the left-over words |
| FieldLaw.Mul2IsTimesX | sshaes.c:39 | mulby2 is multiplication by X modulo X^8 + X^4 + X^3 + X + 1, on polynomials over GF(2) |
| FieldLaw.PolyOfIs | sshaes.c:39 | different bytes are different polynomials, of degree below 8 |
| FieldLaw.MixIsProduct | sshaes.c:122-385 | MixColumns multiplies a column by {03}x^3 + {01}x^2 + {01}x + {02} modulo x^4 + 1 |
| FieldLaw.InvMixIsProduct | sshaes.c:386-649 | InvMixColumns multiplies it by {0b}x^3 + {0d}x^2 + {09}x + {0e} |
| FieldLaw.RconIs | sshaes.c:957-977 | round constant j is X^(j-1) in the field, for every j |
| AesTables.TablesRight | sshaes.c:52-649 | each of the 2560 literals: Sbox is the affine map on inverses, Sboxinv undoes it, E0 to E3 and D0 to D3 are the columns of the matrices over them |
| AesTables.AllRight | sshaes.c:52-649 | so they meet what the cores are proved correct over |
| Aes.Offsets | sshaes.c:688-752 | the shifts of rows 1, 2 and 3 for the three block lengths |
| Gf256.InvMixMix | sshaes.c:122-649 | the InvMixColumns matrix is the inverse of the MixColumns matrix over GF(2^8) |
| Gf256.InvMixXor | sshaes.c:999-1015 | InvMixColumns is linear, which is what applying it to round keys needs |
| Aes.SubShiftUndone | sshaes.c:676-808 | InvShiftRows and InvSubBytes undo ShiftRows and SubBytes, for blocks of 4, 6 and 8 words |
| Aes.InvRoundsMeet | sshaes.c:685-921 | after r rounds the inverse cipher stands where the cipher stood nr-r rounds in |
| Aes.DecipherUndoes | sshaes.c:685-921 | the equivalent inverse cipher undoes the cipher, for every key schedule and its inverse schedule |
| AesCore.MakeWordIs | sshaes.c:672-804 | one table-driven word is substitution, shift and matrix together |
| AesCore.EncryptBlock | sshaes.c:685-792 | the in-place rounds compute the cipher of FIPS 197 |
| AesCore.DecryptBlock | sshaes.c:814-921 | the in-place rounds compute the equivalent inverse cipher |
| AesModes.AesContext.Expand | sshaes.c:957-990 | the loop computes the key expansion of section 5.2 of FIPS 197, for keys of 4, 6 and 8 words and all block lengths |
| AesModes.AesContext.Invert | sshaes.c:992-1018 | the loop computes the inverse schedule: order reversed, inner round keys through InvMixColumns |
| AesModes.AesContext.Setup | sshaes.c:932-1019 | both schedules after aes_setup, and the number of rounds |
| AesModes.AesContext.DecryptUndoes | sshaes.c:685-1019 | after any setup, decryption undoes encryption for every key and block |
| AesVectors.Vector | sshaes.c:685-990 | key 00 01 ... 0f and block 00 11 ... ff give 69c4e0d8 6a7b0430 d8cdb780 70b4c55a, as in appendix C.1 of FIPS 197 |
| AesVectors.LongKey | sshaes.c:957-990 | the words of the schedule for the 32-byte key of appendix C.3, up to the one that is substituted without rotation |
| AesModes.AesContext.EncryptCbc | sshaes.c:1031-1051 | the buffer becomes its CBC encryption, and iv its last block |
| AesModes.AesContext.DecryptCbc | sshaes.c:1053-1075 | the buffer becomes its CBC decryption, and iv the last ciphertext block |
| AesModes.AesContext.EncryptThenDecrypt | sshaes.c:1031-1075 | decrypting from the same iv restores the buffer, byte for byte |
| Cbc.RoundTrip | sshaes.c:1031-1075 | CBC decryption undoes CBC encryption, for any cipher and any number of blocks |
| Cbc.EncryptedAt | sshaes.c:1031-1051 | ciphertext block i is the encryption of plaintext block i added to ciphertext block i-1, or to the chaining value |
| Cbc.DecryptedAt | sshaes.c:1053-1075 | plaintext block i is the decryption of block i added to block i-1, or to the chaining value |
| Cbc.EncryptedSplit | sshaes.c:1031-1051 | splitting the data into two calls does not change the ciphertext |
| Cbc.DecryptedSplit | sshaes.c:1053-1075 | nor the plaintext |
| AesCtr.CountUp | sshaes.c:1093-1095 | the four-word counter goes up by one with its carry |
| AesCtr.CounterValue | sshaes.c:1093-1095 | after m blocks the counter is its start plus m modulo 2^128 |
| AesCtr.Sdctr | sshaes.c:1077-1101 | the buffer is masked with the encrypted counters, and the counter moves on by the number of blocks |
| AesCtr.SdctrTwice | sshaes.c:1077-1101 | a second pass from the same counter restores the buffer |
| Ctr.MaskedTwice | sshaes.c:1077-1101 | counter mode is its own inverse, for any cipher |
| Ctr.MaskedAt | sshaes.c:1077-1101 | block i has the i-th counter, encrypted, added to it |
| Ctr.MaskedSplit | sshaes.c:1077-1101 | splitting the data into two calls does not change the result |
| Des.BitSwapTwice | sshdes.c:502-505 | a masked bit exchange is its own inverse |
| Des.IPTable | sshdes.c:59-65 | every output bit of IP is the input bit that the documented table names |
| Des.PermutationsInverse | sshdes.c:507-521 | FP undoes IP, and IP undoes FP |
| Des.RoundsBack | sshdes.c:523-601 | sixteen rounds with the keys reversed retrace the states, halves exchanged |
| Des.Encipher | sshdes.c:523-561 | permutation, rotation, rounds, exchange and permutation, as one function of the block; des_decipher is the same on reversed keys |
| Des.EncipheredIs | sshdes.c:523-561 | sixteen rounds of the recurrence of FIPS 46-3, L' = R and R' = L + f(R, K), keys in their order, on IP of the block; then FP of the halves exchanged; the rotations go into f |
| Des.DecipherUndoes | sshdes.c:523-601 | des_decipher undoes des_encipher, whatever the key schedule and the round function |
| DesModes.DesContext.CbcEncrypt | sshdes.c:603-625 | the blocks become their CBC encryption, and iv the last of them |
| DesModes.DesContext.CbcDecrypt | sshdes.c:627-651 | the blocks become their CBC decryption |
| DesModes.Encrypt3Cbc | sshdes.c:653-659 | three passes, each with its own chaining value |
| DesModes.Decrypt3Cbc | sshdes.c:687-693 | three passes in the opposite order |
| DesModes.Transfer3Cbc | sshdes.c:653-693 | data sent from one end to the other arrives, and all three chaining values agree again |
| DesModes.EncryptCbc3 | sshdes.c:661-685 | one chain around encrypt, decrypt, encrypt |
| DesModes.DecryptCbc3 | sshdes.c:695-721 | one chain around decrypt, encrypt, decrypt |
| DesModes.TransferCbc3 | sshdes.c:661-721 | data sent from one end to the other arrives, and the chaining values agree again |
| Cbc.RoundTripBack | sshdes.c:653-693 | encryption undoes decryption, which the middle pass relies on |
| Blowfish.RoundsBack | sshblowf.c:236-300 | decryption meets the states of encryption in reverse, masked with the neighbouring subkeys |
| Blowfish.DecryptUndoes | sshblowf.c:236-300 | decryption undoes encryption, whatever P and the S boxes hold |
| Blowfish.CryptedIs | sshblowf.c:236-267 | each half is the one two places before it with F of the one before it and the next subkey added; the last two of seventeen come out, the older with the last subkey added |
| Blowfish.BlowfishContext.Encrypt | sshblowf.c:236-267 | sixteen rounds up through P, two more subkeys, halves exchanged |
| Blowfish.BlowfishContext.Decrypt | sshblowf.c:269-300 | the same down through P |
| Blowfish.BlowfishContext.EncryptCbc | sshblowf.c:376-402 | the blocks become their CBC encryption, and iv the last of them |
| Blowfish.BlowfishContext.DecryptCbc | sshblowf.c:404-430 | the blocks become their CBC decryption |
| Blowfish.Transfer | sshblowf.c:376-430 | data sent from one end to the other arrives, and the chaining values agree again |
| StreamingHash.HashState.CountBytes | sshsh512.c:210-216 | the multi-word byte count grows by the length of the input, carries included |
| StreamingHash.HashState.Bytes | sshsh256.c:102-142 | absorbing p after msg is absorbing msg + p: block, count and chaining value |
| StreamingHash.BitLength | sshsh512.c:264-268 | shifting the byte count by three across its words gives the bit count modulo the field |
| StreamingHash.LengthField | sshmd5.c:187-196 | the length bytes hold the bit count, little-endian for MD5 and big-endian for SHA |
| StreamingHash.HashState.Final | sshsh512.c:253-295 | the digest state is the block fold over the message padded as in section 5.1 of FIPS 180-4, or section 3.1 and 3.2 of RFC 1321 |
| StreamingHash.PaddingUnique | sshsh256.c:144-179 | the padding is determined by the message length |
| StreamingHash.PaddingOfAbc | sshsh512.c:253-295 | the padding of "abc", byte for byte, for all three hashes, as in section 5.1 of FIPS 180-4 |
| StreamingHash.FieldOrder | sshmd5.c:187-196 | the least significant byte of the length comes first in MD5, last in SHA |
| StreamingHash.HashPieces | sshsh256.c:96-179 | any list of chunks hashes to the fold over their concatenation, padded |
| StreamingHash.SameMessageSameHash | sshmd5.c:118-204 | two ways of cutting the same message give the same hash |
| Crc32.TableRight | sshcrc.c:129-194 | each of the 256 literals is eight steps of the shift register from its index |
| Crc32.Update | sshcrc.c:216-225 | the table-driven loop is the shift register, eight steps to a byte |
| ShiftRegister.StepXor | sshcrc.c:91-120 | a step is linear |
| CrcPattern.SquareStep | sshcrcda.c:77-103 | squaring the register, as a polynomial, makes two steps out of one |
| CrcPattern.RootSquare | sshcrcda.c:77-103 | squaring has an inverse |
| CrcPattern.WideIff | sshcrcda.c:77-103 | with one bit and 64 steps to a block the register ends at zero if and only if with one bit and one step it does |
| CrcPattern.ShortPattern | sshcrcda.c:77-103 | for up to 32 positions only the empty pattern has checksum zero |
| CrcPattern.Compensated | sshcrcda.c:77-103 | any pattern whatever can be completed within 32 positions to one with checksum zero |
| CrcDetector.CheckCrc | sshcrcda.c:82-103 | the accumulated CRC is zero after the repeated block, as a function of the packet |
| CrcDetector.CompensatesIff | sshcrcda.c:82-103 | that is so if and only if the pattern of the block, as a polynomial, has CRC zero |
| CrcDetector.NeverShort | sshcrcda.c:82-103 | in packets of fewer than 32 blocks no block compensates, with an IV or without |
| CrcDetector.SmallScan | sshcrcda.c:128-146 | what the quadratic scan finds |
| CrcDetector.SmallMeetsSpec | sshcrcda.c:128-146 | on at most seven blocks neither the scan nor the specification of the large path ever finds an attack, whatever the IV |
| CrcDetector.ShortestAttack | sshcrcda.c:105-172 | 32 blocks and an IV that are an attack |
| CrcDetector.AttackLengths | sshcrcda.c:105-172 | there are attacks of n blocks if and only if n is at least 32 |
| CrcDetector.FreeSlotAhead | sshcrcda.c:115-154 | the table keeps an unused slot ahead of every probe, so every probe loop ends |
| CrcDetector.ProbeComplete | sshcrcda.c:152-168 | probing finds a block if and only if it has been met before or is the IV |
| CrcDetector.IndexStep | sshcrcda.c:152-170 | overwriting the matched slot loses no content |
| CrcDetector.CrcdaCtx.DetectAttack | sshcrcda.c:105-172 | for every packet and IV, 1 if and only if some block repeats the IV or an earlier block and compensates |
| Minefield.Arena.Search | malloc_minefield.c:284-312 | the two-round search ends at the first fitting run from curpos on, or nowhere; and when it has none there was none in either window |
| Minefield.MarkRegion | malloc_minefield.c:316-329 | marking adds exactly one region and keeps all others, empty or not |
| Minefield.Arena.Alloc | malloc_minefield.c:273-336 | NULL if and only if no window has a run; otherwise the first fitting run becomes a new region of the requested size, zero included, that ends on a page boundary |
| Minefield.Apart | malloc_minefield.c:318-327 | a live region ends before the next one starts, with an unused page between them unless it is empty |
| Minefield.Disjoint | malloc_minefield.c:318-327 | live regions do not overlap, and are at least a page apart when neither is empty |
| Minefield.GuardBefore | malloc_minefield.c:318-327 | the page before a live region is unused if and only if no empty region took it |
| Minefield.AcceptedIff | malloc_minefield.c:344-348 | a pointer is accepted if and only if it is the start of a live region |
| Minefield.Arena.Free | malloc_minefield.c:338-356 | the regions in the run of used pages from the pointer on go, which for a region that is not empty is that region alone; or nothing changes |
| Minefield.AloneIff | malloc_minefield.c:349-351 | free takes that region alone if and only if it is not empty or no region starts on its next page |
| Minefield.FreedWithNeighbour | malloc_minefield.c:273-374 | a run in six pages: an empty region lands in front of a live one, whose guard page is gone, and freeing it frees both |
| Minefield.Arena.GetSize | malloc_minefield.c:358-374 | the size that was asked for, exactly, unless that was zero: then the length of the run, a page or more |
| Minefield.Arena.Realloc | malloc_minefield.c:394-405 | a new region of the new size with the smaller of the two lengths copied, and the old one gone |
| Minefield.FreedButNotFound | malloc_minefield.c:284-312 | an allocation that fails although enough pages in a row are unused |
| SshStrings.Uint32Iff | misc.cpp:534-542 | reading succeeds with w if and only if the data starts with the four bytes of w |
| SshStrings.StringIff | misc.cpp:517-532 | reading succeeds with a string if and only if the data starts with its length and its bytes |
| SshStrings.StringsIff | import.c:1669-1674 | the same for n strings in a row |
| SshStrings.Cursor.GetUint32 | misc.cpp:534-542 | the cursor moves past the number, or not at all |
| SshStrings.Cursor.GetString | misc.cpp:517-532 | the cursor moves past the string, or not at all |
| OpenSshKey.ParseKdfIff | import.c:1432-1457 | options are accepted if and only if empty for "none", or starting with salt and rounds for "bcrypt" |
| OpenSshKey.PlainHead | import.c:1396-1428 | the 39 bytes that every key file without a passphrase begins with |
| OpenSshKey.HeadIff | import.c:1399-1457 | the head is accepted if and only if magic, cipher, kdf and options are there |
| OpenSshKey.BodyIff | import.c:1471-1499 | the rest is accepted if and only if it has key count 1, a public and a private string |
| OpenSshKey.FileIff | import.c:1396-1503 | a file loads as a container if and only if it is that container written out, with anything after it |
| OpenSshKey.LoadFile | import.c:1396-1503 | the cursor-driven loader computes that parse, its error messages included |
| OpenSshKey.PrivateIff | import.c:1620-1716 | a private section is accepted if and only if equal check numbers, type, pieces, comment and padding 1, 2, 3, ... make it up |
| OpenSshKey.SkipStrings | import.c:1669-1674 | skipping the pieces leaves the cursor behind them |
| OpenSshKey.CheckPadding | import.c:1711-1716 | the padding is accepted if and only if byte i is i+1 modulo 256 |
| OpenSshKey.ReadPrivate | import.c:1620-1716 | the cursor-driven reader computes that parse |
| OpenSshKey.ReadContainer | import.c:1544-1716 | with decryption before it where the container is encrypted |
| OpenSshKey.WriteOptions | import.c:1800-1804 | the length that is filled in afterwards is the length of salt and rounds |
| OpenSshKey.WritePadding | import.c:1834-1838 | 1 to 16 bytes, counting up from 1, to the next multiple of 16 |
| OpenSshKey.WritePrivate | import.c:1813-1838 | the private section as laid out |
| OpenSshKey.WriteFile | import.c:1769-1866 | the blob is the container written out, and stays under maxsize |
| OpenSshKey.SaveThenLoad | import.c:1396-1866 | what is saved loads as the same key and comment, with and without a passphrase |

## Left out

- ModularInverse.ModInv: the modulus must be at least 2, and the sizes leave room in a word for the sums of lengths.
- MontgomeryPower.ModPow: the sizes leave room in a word for the sums of lengths.
- BigMul.BnCmp: asks for trimmed operands, which is what every routine of the engine returns.
- MontgomeryCurve.MulM: takes associativity of the group as given.
- ScalarMul.Mul_: takes associativity of the curve's addition as given; closure, zero and commutativity are proved. The same holds for `MulE`.
- EdwardsCurve.SumOnCurve: takes as given that the denominators of the addition law have inverses, which holds when d is not a square modulo p.
- Ecdsa.SignThenVerify: takes as given that the order is prime and that the points form a group.
- DssNonce.GenK: terminates only if some perturbation of the hash is suitable (`Ends`), which depends on SHA-512, an arbitrary function here.
- Dss.SignThenVerify: q is a prime above 3 that fits 20 bytes, and p is above 1.
- Minefield.Arena.Realloc: is stated for a live region that is not empty, since the page of an empty one is never committed and cannot be copied from; for other pointers the code stops in `minefield_bomb`. When the new allocation fails the code copies to a null pointer; the model returns none in the state before that, with the old region still live.
- OpenSshKey.SaveThenLoad: is stated for names and comments without zero bytes, as C strings are, and takes the cipher as a pair of inverse functions; that AES in CBC mode is such a pair is `EncryptThenDecrypt`.
- AesModes.AesContext.EncryptCbc: is for 16-byte blocks, as the code asserts; the same holds for decryption and for SDCTR.
- Primality appears as the existence of inverses (`IsField`), with p above 3.
- In `sshecc.c` and `sshdss.c` Bignums are naturals; the word-level engine is not called from there, and freeing and NULL on exhausted memory are not modelled.
- int overflow of sizes near 2^31, and C shifts by the width of the word.
- The compression functions of the hashes, and the gathering of their words.
- The round functions and key schedules of DES and Blowfish; their conversion between bytes and words, a block being two words here; their SDCTR modes.
- The hash table size of `detect_attack` is a power of two, and its `& (n - 1)` is a remainder here; disjoint bit fields that the code joins with `|` are added.
- VirtualAlloc and VirtualProtect, and the hiding of the admin pages.
- Files, base64 lines, bcrypt, random bytes: byte sequences and parameters take their place.
- Other formats of `import.c` (PEM and its BER lengths, ssh.com and its mpints), key generation, EdDSA signing and `ecp_edx`, biggcd, bignum shifts and random numbers in a range: easier members of the same kind, or dependent on parts that are not here.
- The Qt user interface, sockets, key store, smart cards and Bluetooth.
